# Verified model of the Livepeer payout bot

The bot watches a Livepeer explorer and tells Discord about it: ticket payouts, daily, weekly and monthly summaries,
reward calls that are late or missed, cut changes and delegations. At build time it also rewrites the explorer's
OpenAPI document so that a client can be generated from it. This project models that logic in Dafny and proves what the
parts promise, over every input, every run and every interleaving.

`dafny verify dfyconfig.toml` checks the whole project.

## How it is built

Each part has a specification (functions on values) about which the theorems are stated. Where the program changes
things step by step there is also an imperative form, a loop or a class with the program's own fields, proved to
compute that specification. Failures are modelled by a credit: a run sets out to perform a plan, a sequence of
effects, and performs as much of it as the credit allows, so that a crash or a failed write may fall after any effect.
The machines of the posters (`TicketPosting`, `Dispatch`, `SubscriberDigestPoster`) instead have steps for a run that
stops and for a mark that never goes through after an accepted send, and count those marks.

| part | modules |
|---|---|
| OpenAPI 3.1 to 3.0 rewriting | `Json`, `OpenApiDowngrade`, `OpenApiMeaning`, `OpenApiReading`, `OperationIds` |
| reward-call watch | `RoundProgress`, `RewardWatch`, `RewardWatchRuns`, `RewardWatchCursors`, `RewardWatchRows`, `RewardWatchTold`, `RewardWatchPruning`, `RewardWatchPoller`, `DelinquentDigest` |
| event and ticket pipeline | `Tickets`, `EventIngest`, `EventPoller`, `DigestJobs`, `TicketPosting`, `DigestPoster`, `DigestTotals` |
| summaries | `Calendar`, `SummaryPeriods`, `SummaryGate`, `SummaryPoster` |
| direct messages | `Subscriptions`, `Dispatch`, `Dispatcher`, `DelegatorDigest`, `SubscriberDigestPoster` |
| webhook client | `RateGate` |
| other loops | `DelegatorPages`, `StripComments` |
| shared | `Wrappers`, `Sequences`, `Sorting`, `Text` |

The OpenAPI part gives schemas a meaning, the set of instances they accept, once by JSON Schema Validation 2020-12
section 6.1.1 and JSON Schema Core 2020-12 section 10.2.1.3, and once by OpenAPI 3.0.3 section 4.7.24 with section
4.7.23 for references. The meaning of a `$ref` is a parameter (`Context.component`), so recursive components are
covered. A third reading, `Referred`, is that of 2020-12 except that a plain union of null and a reference is read as
the reference alone. Over it the rewriting preserves meaning for every schema and every instance, such unions anywhere
in the tree included (`ReadingPreserved`, `ComponentsPreserved`), so this applies to the document build.rs reads; and
it is the reading of 2020-12 itself wherever no such union or no null is involved (`MeaningPreserved`). `OpenApiReading`
spells out, keyword by keyword, which instances a schema with that keyword accepts.

## What the proofs found

Where a promise does not hold of the code, the code is modelled as it is and the exact condition is proved.

- The nullable unions in docs/generated/openapi.json are all `oneOf` null and a reference. Collapsing one leaves a
  `$ref` beside `nullable`, which OpenAPI 3.0.3 section 4.7.23 says to ignore: read strictly, the rewritten schema no
  longer takes null (`ReferenceUnionLosesNull`). Such a union means the same before and after exactly for the
  instances other than null (`ReferenceUnionExactly`), and nothing else is lost anywhere (`ReadingPreserved`). For a
  plain union over any branch, `CollapseExact` says when collapsing it keeps its meaning.
- Operation ids of two paths that differ only in `-` and `/` collide (`DashReadsAsSlash`), and the rewriting passes over
  `head`, `options` and `trace`, whose ids may be ones it makes (`KeptIdCollides`). `IdsUniqueExactly` gives the exact
  condition over the operations of all eight methods.
- The reward-call watch drops the rows of rounds more than eight back. Over every order in which rounds can be observed,
  that never shows exactly when no round is more than eight below an earlier one (`PruningInvisibleExactly`), and the
  number of alerts about a round is bounded exactly when the round is not observed again after one more than eight above
  it (`LadderBoundedExactly`). The missed-reward message is sent once whatever the order (`MissedIsSentOnce`).
- A database without the missed-reward cursor never gets one, so a fresh deployment never sends a missed-reward
  message and never prunes (`AbsentCursorIsAbsorbing`).
- A ticket digest that was accepted but whose mark failed is sent again by the next run (`LostMarkSendsTwice`). A
  ticket is delivered as often as its mark was lost, plus once if it is marked (`ExactlyOnce`).
- Rows lacking an address stay unsent and are fetched again; once they fill a fetch, a run does nothing
  (`IncompleteRowsStarve`).
- The refresh before a digest can show a valuation that differs from the stored one. `RefreshAgreesExactly` gives the
  condition for whatever copy the poster holds. The copy is that of the row at the fetch, so it is current unless the
  event poller, which reads its last page again on every poll, has repaired the row since. With a current copy they
  differ only if a positive field is offered another positive value (`CurrentCopyAgrees`); with an older copy a field
  that was missing can differ too, whether or not the ticket found carries a valuation (`StaleCopyDisagrees`).
- Of a ticket's price the tolerance of a fifth decides nothing: where the ticket's own amounts give a price above 100,
  that is the price, whatever the explorer's is (`SanePriceExactly`).
- With the default deferral of 48 h the incomplete footer is unreachable for daily summaries: a day that is never fully
  priced is never posted (`BackstopReachable`, `DailyIsNeverIncomplete`). An unreadable ticket count passes as priced
  (`UnreadableCountPasses`); `EnrichedExactly` says which rollups slip through the gate, and `SlippedIsSentComplete`
  that they are sent without the footer.
- src/config.rs:140-147 says a summary is posted as complete only when the explorer is not behind the bot's own count
  and two consecutive polls agree; src/domains/scheduler/summary_poster.rs:96-117 posts on pricing alone. A summary goes
  out while the explorer is behind (`BehindIsSent`), and since only rollups that are not fully priced are ever stored
  for comparison, no complete summary is ever the second of two equal observations (`NeverDocumented`,
  `DocumentedExactly`); if an earlier look did see the same figures, its send or its mark failed (`SeenTwiceMeansFailed`).
- The blocked flag and the failure counter agree only for a threshold of at least one and fan-outs that do not
  interleave and whose writes succeed (`AgreementExactly`); `StaleFlagExactly` says which single deliveries part them.
- A first ingest of an orchestrator's cut history that stops half way leaves the rest of that history to be announced
  (`SeedingSurvivesExactly`). Conversely the first change of an orchestrator whose history was empty is stored as sent,
  so nobody is told (`FirstChangeIsSilent`); a change is announced exactly when an earlier look had stored something
  (`AnnouncedExactly`).
- The delegation digest never reads the `delegator_history` table that src/seed.rs:3-6 says it depends on: a Bond is new
  when no stored event of the pair is earlier. Bonds with equal times, or out of order, can both be called new
  (`EqualTimesAreBothNew`): a Bond is ever called new exactly if none of its pair was earlier when it was stored
  (`EverNewExactly`), over every history.
- The comment stripper pushes bytes as characters, so stripping twice changes non-ASCII text (`StripAgainExactly`).

## Model

| member | source | states |
|---|---|---|
| `OpenApiDowngrade.DowngradeTypeArrays` | build.rs:136-171 | the in-place walk that turns `type: [T, "null"]` into `type: T, nullable: true` computes `Downgraded`, whatever the shape of the document |
| `OpenApiDowngrade.NonNullTypeExactly` | build.rs:139-149 | which type survives: an array of two strings of which exactly one is "null" leaves the other; any other value leaves none |
| `OpenApiDowngrade.TypeArrayIsDowngraded` | build.rs:136-171 | whatever else the node says: `[T, "null"]` and `["null", T]` become `T` with `nullable: true`, and the other keys stay, each rewritten in turn |
| `OpenApiDowngrade.OtherNodesAreKept` | build.rs:136-171 | a node without such an array keeps its keys, each rewritten in turn |
| `OpenApiDowngrade.SurvivingBranch` | build.rs:63-77 | which branch of a `oneOf` survives: in a pair of the null type and a branch that says something, the latter, and otherwise none |
| `OpenApiDowngrade.SurvivingBranchExactly` | build.rs:63-77 | which `oneOf` collapses, stated on its two items: one has the type null, and the other, which survives, is an object with some key that has not |
| `OpenApiDowngrade.UnionIsCollapsed` | build.rs:57-96 | the collapsed node: the branch's keys over its own, its `oneOf` gone unless the branch has one, and `nullable: true` |
| `OpenApiDowngrade.OtherNodesStay` | build.rs:57-96 | a node that is no such union keeps its keys and their values when it is collapsed |
| `OpenApiDowngrade.CollapseNullableOneof` | build.rs:57-96 | the in-place bottom-up walk that merges the surviving branch into its parent computes `Collapsed` |
| `OpenApiDowngrade.InsertAll` | build.rs:78-86 | the keys of the surviving branch replace those of the node |
| `OpenApiDowngrade.RewrittenObj` | build.rs:30-31 | the two whole-document walks, one after the other, do what a single recursive rewriting would do at every node |
| `OpenApiDowngrade.CollapseNodeKeepsNoTypeArray` | build.rs:78-86 | merging a branch upward never creates a new rewritable type array |
| `OpenApiDowngrade.RewrittenIsNormalForm` | build.rs:30-31 | for every JSON value: no rewritable type array and no collapsible union is left anywhere, so rerunning either pass or the pair changes nothing |
| `OpenApiDowngrade.DataIsFixed` | build.rs:57-171 | a keyword that holds scalars, or arrays of them, passes through both walks untouched |
| `OpenApiMeaning.ReadingPreserved` | build.rs:57-171 | for every well-formed schema, unions of null and a reference at any depth included, and every instance: the rewritten schema under OpenAPI 3.0.3 accepts it exactly when the source schema does with each such union read as its reference |
| `OpenApiMeaning.MeaningPreserved` | build.rs:57-171 | the same for the source schema as JSON Schema 2020-12 reads it, where the schema has no such union or the instance no null |
| `OpenApiMeaning.ComponentsPreserved` | build.rs:24-31 | whole documents with recursive components and with unions of null and a reference: the same meanings of the component names solve the equations of the source, each such union read as its reference, and of the rewritten document |
| `OpenApiMeaning.ComponentsPreserved31` | build.rs:24-31 | the same with the source read as 2020-12 reads it, for documents without such unions |
| `OpenApiMeaning.CollapseExact` | build.rs:57-96 | collapsing one union, whatever is beneath it, keeps the meaning of its `oneOf` if and only if the surviving branch writes a single type of its own and nothing else in it rejects null |
| `OpenApiMeaning.CollapseExactly31` | build.rs:57-96 | the same for the meaning 2020-12 gives the whole node, when no union beneath it is over a reference |
| `OpenApiMeaning.UnionPreserved` | build.rs:57-96 | a plain union whose branch qualifies is accepted alike before and after collapsing |
| `OpenApiMeaning.NestedUnionAtNull` | build.rs:57-96 | a union of null and a typed union: null is rejected before the rewriting and accepted after it |
| `OpenApiMeaning.ReferenceUnionExactly` | build.rs:57-96 | a union of null and a reference accepts an instance alike before and after if and only if the instance is not null |
| `OpenApiMeaning.ReferenceUnionLosesNull` | build.rs:53-57 | the unions this document really has (null or a reference) accept null, and read strictly their rewritten form does not |
| `OpenApiReading.NullableIsRead` | build.rs:131-135 | what the two readings make of `nullable`: only OpenAPI 3.0 reads it, where it is true beside a type |
| `OpenApiReading.TypeArrayIsRead` | build.rs:131-135 | only JSON Schema reads a type that is an array, as either of its types |
| `OpenApiReading.NullableTypesAreCovered` | build.rs:53-171 | both spellings of a nullable type are schemas to which the theorems on meaning apply |
| `OpenApiReading.NullableTypeIsKept` | build.rs:53-96 | for every type T: the union of null and T, rewritten, takes null and the instances of T, and nothing else |
| `OperationIds.RewriteItem` | build.rs:104-113 | the inner loop over the five methods of one path |
| `OperationIds.RewriteOperationIds` | build.rs:98-117 | the in-place loop over the paths computes `WithOperationIds` |
| `OperationIds.MethodsExactly` | build.rs:104 | the methods rewritten are get, post, put, patch and delete; those passed over are head, options and trace |
| `OperationIds.TrimmedExactly` | build.rs:119-129 | trimming takes the slashes off both ends and nothing else |
| `OperationIds.SubstitutedExactly` | build.rs:119-129 | character by character: a slash or a dash becomes an underscore, braces go, everything else stays |
| `OperationIds.IdsOfPaths` | build.rs:119-129 | two examples: the root, and a path with a parameter, a dash and a slash at its end |
| `OperationIds.SameIdExactly` | build.rs:119-129 | two synthesized ids are equal if and only if the methods are and the cleaned paths are |
| `OperationIds.IdsUniqueExactly` | build.rs:98-129 | no two operations of any of the eight methods share an id after the rewriting if and only if cleaning keeps the paths of each rewritten method apart and the ids of the operations it passes over differ from each other and from those it makes |
| `OperationIds.KeptIdCollides` | build.rs:104-107 | whatever the path: a `head` that carries the id its `get` is given |
| `OperationIds.OnlyIdsChange` | build.rs:98-117 | with the ids of its operations taken out, every document is the same before and after |
| `OperationIds.DashReadsAsSlash` | build.rs:119-129 | distinct paths that differ in a dash and a slash get the same id |
| `RoundProgress.ProgressMonotone` | src/domains/scheduler/reward_watch_poller.rs:463-478 | round progress stays within 0 and 100, never falls as the clock advances and saturates at both ends |
| `RoundProgress.ProgressIsElapsedShare` | src/domains/scheduler/reward_watch_poller.rs:463-478 | inside the round, progress is the share of its blocks that have gone by, in whole percent rounded down |
| `RoundProgress.DueCountsRungs` | src/domains/scheduler/reward_watch_poller.rs:481-487 | the alerts due are as many as thresholds first + k * step have been reached |
| `RoundProgress.DueIsBounded` | src/domains/scheduler/reward_watch_poller.rs:481-487 | never more than 1 + (100 - first) / step of them, and none before the first threshold |
| `RewardWatch.PruningIsInvisible` | src/domains/scheduler/reward_watch_poller.rs:157-304 | over any run whose rounds never fall more than eight below an earlier one, the pruning watcher performs the same effects and holds the same cursors as one that keeps every row |
| `RewardWatch.TickKeepsAgreement` | src/domains/scheduler/reward_watch_poller.rs:110-304 | one tick of both watchers from agreeing stores performs the same effects and leaves agreeing stores |
| `RewardWatchTold.TickDoesOnly` | src/domains/scheduler/reward_watch_poller.rs:110-352 | whatever fails, every effect of a tick is one it owes: a missed message only to a subscribed, active, unnotified orchestrator with subscribers that is on no page of the closed round's rewards; an alert only to one on no page of its round's, and so on for every write |
| `RewardWatchTold.TickDoesExactly` | src/domains/scheduler/reward_watch_poller.rs:110-352 | when no lookup or write fails, the effects of a tick are exactly those it owes, in both directions, effect by effect, stated on the reward pages |
| `RewardWatchTold.RunDoesOnly` | src/domains/scheduler/reward_watch_poller.rs:110-352 | over every run, whatever fails: each effect was owed by the tick that had it |
| `RewardWatchTold.TickDoesOnce` | src/domains/scheduler/reward_watch_poller.rs:163-293 | no tick performs an effect twice |
| `RewardWatchTold.ToldOnceUnlessFailed` | src/domains/scheduler/reward_watch_poller.rs:110-352 | over every run in which nothing fails, one missed reward is told of once at most, and one late reward at most as often as a full round has unrecorded rungs, unless its round is observed again after one more than eight above it |
| `RewardWatchPruning.PruningInvisibleExactly` | src/domains/state/reward_watch.rs:119-125 | over every sequence of observed rounds: pruning is invisible in all runs that observe it if and only if no round is more than eight below an earlier one |
| `RewardWatchPruning.LadderBoundedExactly` | src/domains/scheduler/reward_watch_poller.rs:163-206 | over every sequence of observed rounds: the alerts about one round are bounded in all runs that observe it if and only if that round is never observed after one more than eight above it |
| `RewardWatchPruning.FallShows` | src/domains/state/reward_watch.rs:119-125 | for every sequence of rounds that falls by more than eight, a run that observes it in which the pruning watcher repeats an alert |
| `RewardWatchRuns.LadderIsBounded` | src/domains/scheduler/reward_watch_poller.rs:163-206 | per round and orchestrator, whatever the clock does, fan-outs of the pruning watcher number at most the unrecorded rungs of a full round plus the ticks that failed between sending and recording, as long as the round is not observed after one more than eight above it |
| `RewardWatchRuns.TickClimbs` | src/domains/state/reward_watch.rs:31-52 | a recorded fan-out strictly raises `alerts_sent`, never past a full round; without one the count stays unless the tick may drop the row; a tick of another round does neither |
| `RewardWatchCursors.DigestCursorAscends` | src/domains/scheduler/reward_watch_poller.rs:306-322 | every write to the digest cursor raises it, whatever order rounds are reported in, and no digest follows for that round or an earlier one |
| `RewardWatchCursors.MissedCursorAscends` | src/domains/scheduler/reward_watch_poller.rs:237-304 | the same for the missed-reward cursor, with every message and mark about a closed round |
| `RewardWatchCursors.AbsentCursorIsAbsorbing` | src/domains/scheduler/reward_watch_poller.rs:238-247 | a store without the missed cursor never gets one: no missed message, no pruning |
| `RewardWatchCursors.DigestListsDelinquents` | src/domains/scheduler/reward_watch_poller.rs:306-375 | every digest posted in a run lists, largest stake first, exactly the missing of one of its ticks: the active orchestrators of all pages that are on no page of that tick's reward events, and it lists at least one |
| `RewardWatchRows.MissedIsSentOnce` | src/domains/scheduler/reward_watch_poller.rs:260-304 | over every run of the pruning watcher, in whatever order rounds are observed, a missed-reward message goes out at most once per round and orchestrator, plus once for every tick that failed before marking it |
| `RewardWatchRows.StampsAreWrittenOnce` | src/domains/state/reward_watch.rs:58-125 | whatever is performed, a resolved or missed time stamp keeps its first value as long as its round is not pruned |
| `RewardWatchRows.StampsTell` | src/domains/state/reward_watch.rs:58-114 | over any run of effects the stamps and rungs of a row are the first time its round was resolved, the first it was marked as notified, and the rungs recorded last |
| `RewardWatchRows.StampsLastEightRounds` | src/domains/state/reward_watch.rs:58-125 | over any run of the pruning watcher a round keeps its rows and their stamps as long as no observed round is more than eight above it |
| `RewardWatchPoller.RewardWatchRepo.AlertsSent` | src/domains/state/reward_watch.rs:18-27 | rungs recorded, zero without a row |
| `RewardWatchPoller.RewardWatchRepo.SetAlertsSent` | src/domains/state/reward_watch.rs:31-52 | upsert that leaves the stamps alone |
| `RewardWatchPoller.RewardWatchRepo.MarkResolved` | src/domains/state/reward_watch.rs:58-76 | upsert that keeps an earlier stamp |
| `RewardWatchPoller.RewardWatchRepo.WasMissedNotified` | src/domains/state/reward_watch.rs:78-94 | whether the row exists and is stamped |
| `RewardWatchPoller.RewardWatchRepo.MarkMissedNotified` | src/domains/state/reward_watch.rs:96-114 | upsert that keeps an earlier stamp |
| `RewardWatchPoller.RewardWatchRepo.PruneBefore` | src/domains/state/reward_watch.rs:119-125 | removes exactly the rows of earlier rounds |
| `RewardWatchPoller.Poller.MissedPass` | src/domains/scheduler/reward_watch_poller.rs:260-293 | the loop over subscribed orchestrators of a closed round performs the plan, or a part of it if a write fails |
| `RewardWatchPoller.Poller.ProcessClosedRound` | src/domains/scheduler/reward_watch_poller.rs:226-304 | the closed-round pass with its cursor, its readiness test and its pruning |
| `RewardWatchPoller.Poller.LadderPass` | src/domains/scheduler/reward_watch_poller.rs:163-206 | the ladder loop performs the plan, or a part of it if a write fails |
| `RewardWatchPoller.Poller.PostDigestOnce` | src/domains/scheduler/reward_watch_poller.rs:306-352 | collects the delinquents of the pages; the digest is posted only if it lists anyone, and recorded in either case |
| `RewardWatchPoller.Poller.PollOnce` | src/domains/scheduler/reward_watch_poller.rs:110-221 | one tick performs `TickEffects`, over which the theorems above are stated |
| `DelinquentDigest.RewardedOrchs` | src/domains/scheduler/reward_watch_poller.rs:357-375 | the loop over the pages: the addresses in any page of the round's reward events, lower-cased |
| `Text.CapitalsAreLowered` | src/domains/scheduler/reward_watch_poller.rs:357-375 | lower-casing takes each of the 26 capitals to the letter at its place |
| `Text.OthersAreKept` | src/domains/scheduler/reward_watch_poller.rs:357-375 | and leaves every other character |
| `DelinquentDigest.CollectDelinquents` | src/domains/scheduler/reward_watch_poller.rs:323-352 | the digest lists exactly the active orchestrators of all pages that called no reward, by descending stake |
| `Tickets.PreferredIsLastMaximum` | src/domains/explorer/types.rs:21-29 | the preferred valuation is the last of those that rank highest |
| `Tickets.PreferenceExactly` | src/domains/explorer/types.rs:11-29 | which of two valuations ranks higher: by status, "priced" before "priced_with_warning" before any other, then a USD value above zero, then a price above zero |
| `EventIngest.NewTicketHoldsPreferred` | src/domains/state/repo.rs:46-129 | a ticket stored for the first time holds the last of its highest-ranked valuations once its insertion and repair are done |
| `Tickets.ValuationFold` | src/domains/state/repo.rs:46-129 | under any interleaving of inserts, repairs and marks each valuation field is its starting value if positive, else the first positive offer while unsent, else the starting value; sent rows are frozen |
| `Tickets.RefreshEventValuation` | src/domains/scheduler/digest_poster.rs:235-264 | the refresh repairs the table and overwrites the copy in memory |
| `Tickets.RefreshedCopyExactly` | src/domains/scheduler/digest_poster.rs:235-264 | the copy takes each offered value above zero if the ticket was found and its row is pending, and nothing else of it changes |
| `Tickets.MissingExactly` | src/domains/scheduler/digest_poster.rs:219-233 | which fetched tickets are looked up again: those without two valuations above zero |
| `Tickets.RefreshKeepsOtherRows` | src/domains/scheduler/digest_poster.rs:235-264 | no other row changes, and of the row itself only its valuations |
| `Tickets.RefreshAgreesExactly` | src/domains/scheduler/digest_poster.rs:235-264 | for whatever copy the poster holds, each field of copy and row agrees after the refresh if and only if, where a valuation reaches an unsent row and the field is offered a positive value, the row has none or the same, and otherwise if the two agreed before |
| `Tickets.CurrentCopyAgrees` | src/domains/scheduler/digest_poster.rs:235-264 | with the copy as the row stands they differ if and only if a field that was positive is offered a different positive value |
| `Tickets.StaleCopyDisagrees` | src/domains/scheduler/digest_poster.rs:235-264 | two inputs on which a copy fetched before a repair differs from the row in a field that was missing |
| `EventIngest.ReingestIsNoOp` | src/domains/state/repo.rs:46-129 | storing an event of an ingested page again changes nothing |
| `EventIngest.IngestIsCrashSafe` | src/domains/scheduler/event_poller.rs:31-63 | however often the poller of tickets, rewards or delegations dies after any statement, every storable event before the stored cursor is in the table and nothing outside the log is |
| `EventIngest.CrashesLeaveNoTrace` | src/domains/scheduler/reward_poller.rs:61-89 | two pollers that crash in different places hold the same table once each has caught up with the same log |
| `EventIngest.CursorCatchesUp` | src/domains/scheduler/reward_poller.rs:61-89 | completed runs catch up: each ends at the end of the log or moves the cursor, however short the pages served with a next cursor |
| `EventIngest.PageExactly` | src/domains/scheduler/event_poller.rs:31-42 | a page holds what the explorer lists of the rest of the log, a hundred entries at most |
| `EventPoller.StateRepo.InsertOrIgnore` | src/domains/state/repo.rs:46-92 | adds the row unless its id is known |
| `EventIngest.StorableExactly` | src/domains/state/event_streams.rs:211-245 | which listings are stored: any ticket, a reward with a recipient, a delegation with both addresses |
| `EventIngest.StoredAsListed` | src/domains/state/repo.rs:71-88 | for each of the three streams: a storable listing that is new to the table leaves a row with its own event name, time, sender, recipient and amount, unsent |
| `EventIngest.FirstValuationIsKept` | src/domains/scheduler/event_poller.rs:42-46 | a stored delegation or reward holds its first valuation, whatever its rank |
| `EventIngest.RowsSayWhatWasListed` | src/domains/scheduler/event_poller.rs:31-63 | over every run with crashes, each row of the table has the name, time, addresses and amount of a log entry with its id |
| `EventPoller.StateRepo.RepairPendingEventValuation` | src/domains/state/repo.rs:94-129 | fills missing valuations of an unsent row |
| `EventPoller.StateRepo.SetCursor` | src/domains/state/repo.rs:139-155 | overwrites the cursor |
| `EventIngest.AttemptsHold` | src/domains/scheduler/delegator_poller.rs:44-83 | after any number of crashed attempts the table is that of a prefix of the log which reaches the stored cursor |
| `EventPoller.StateRepo.InsertEvent` | src/domains/state/event_streams.rs:211-245 | a reward or delegation lacking an address is not stored; a ticket is inserted and then repaired if it offers a valuation |
| `EventPoller.StateRepo.InsertPage` | src/domains/scheduler/event_poller.rs:42-46 | the loop over one page runs its statements, or a start of them if the process dies |
| `EventPoller.StateRepo.RunOnce` | src/domains/scheduler/event_poller.rs:31-63 | the paging loop runs a start of the plan over which crash safety is stated |
| `DigestJobs.JobsPartition` | src/domains/scheduler/digest_poster.rs:46-150 | the jobs hold exactly the fetched events with both addresses, each as often as it was fetched |
| `DigestJobs.JobsAreNamed` | src/domains/scheduler/digest_poster.rs:118-150 | at most two jobs per orchestrator, told apart by their kind |
| `DigestJobs.JobsAreExact` | src/domains/scheduler/digest_poster.rs:103-150 | a job lists exactly the fetched events paid to its orchestrator by gateways of its kind, each as often as fetched, in order of time, and is dated by the latest of them |
| `DigestJobs.EveryEventHasAJob` | src/domains/scheduler/digest_poster.rs:46-150 | every complete event is in a job of its orchestrator and of its gateway's kind |
| `DigestJobs.SameTimeKeepsFetchOrder` | src/domains/scheduler/digest_poster.rs:60 | the events of one orchestrator and one moment keep the order they were fetched in |
| `DigestJobs.MessagesAreInOrder` | src/domains/scheduler/digest_poster.rs:152-157 | of two messages of a run the first has the earlier date, of equal dates the lower address, and of one orchestrator the transcoding job goes first |
| `DigestJobs.OrderIsDeterministic` | src/domains/scheduler/digest_poster.rs:152-157 | the messages and their order are the same for every iteration order of the hash map |
| `TicketPosting.ExactlyOnce` | src/domains/scheduler/digest_poster.rs:35-175 | in every interleaving of poller and poster, wherever runs stop and whichever marks fail: between sends each stored event has been delivered as often as its mark was lost, plus once if it is marked; what is delivered has both addresses |
| `TicketPosting.TwiceOnlyIfLost` | src/domains/scheduler/digest_poster.rs:159-175 | at every moment a ticket has been delivered at most once more often than its mark was lost, and while its job waits for its mark exactly once more often |
| `TicketPosting.LostMarkSendsTwice` | src/domains/scheduler/digest_poster.rs:161 | a run of poller and poster in which one lost mark sends a ticket twice |
| `TicketPosting.DrainExactly` | src/domains/scheduler/digest_poster.rs:35-175 | a run whose sends are accepted takes exactly the complete events it fetched off the backlog |
| `TicketPosting.TakesOldest` | src/domains/state/repo.rs:157-186 | a run whose sends are accepted leaves no complete row older than one it took |
| `TicketPosting.GroupsAreInOrder` | src/domains/scheduler/digest_poster.rs:60 | the query lists the rows by age, so sorting a group changes nothing |
| `TicketPosting.BacklogFalls` | src/domains/scheduler/digest_poster.rs:35-175 | with both addresses on every row, each run takes min(limit, backlog) off it |
| `TicketPosting.BacklogDrains` | src/domains/scheduler/digest_poster.rs:35-175 | after n runs the backlog is what is left beyond n * limit, and zero from then on |
| `TicketPosting.IncompleteRowsStarve` | src/domains/scheduler/digest_poster.rs:50-55 | a run whose sends are accepted takes nothing off the backlog if and only if every row it fetched lacks an address |
| `DigestPoster.GroupByOrch` | src/domains/scheduler/digest_poster.rs:46-57 | the groups of the hash map |
| `DigestPoster.OrchJobs` | src/domains/scheduler/digest_poster.rs:59-150 | the one or two jobs of one group |
| `DigestPoster.BuildJobs` | src/domains/scheduler/digest_poster.rs:46-157 | the sorted jobs, the same for every order in which the hash map can be walked |
| `DigestPoster.Poster.MarkSent` | src/domains/state/repo.rs:188-203 | marks exactly the listed rows |
| `DigestPoster.Poster.RefreshCopies` | src/domains/scheduler/digest_poster.rs:46-57 | the lookups of missing valuations before the grouping are steps of the machine of `TicketPosting`; one that fails ends the run |
| `DigestPoster.Poster.SendJob` | src/domains/scheduler/digest_poster.rs:160-163 | one job: the send and, if it is accepted, the mark, which may fail |
| `DigestPoster.Poster.SendJobs` | src/domains/scheduler/digest_poster.rs:159-175 | each accepted job is marked before the next is sent, and a mark that fails ends the run and is counted; the loop is a run of that machine |
| `DigestPoster.Poster.RunOnce` | src/domains/scheduler/digest_poster.rs:35-175 | one run of the poster, whichever lookup, send or mark fails, is a run of that machine, and with all of them accepted drains what `DrainExactly` says |
| `DigestTotals.Aggregate` | src/domains/notify/embed.rs:118-157 | the loop over a job's tickets: total, priced total, median of the prices of the tickets that have one, and count and total of each gateway |
| `DigestTotals.SumsSplit` | src/domains/notify/embed.rs:118-157 | the sums of two lists of tickets add up: total, priced total and count, and each gateway's line |
| `DigestTotals.SumsOfOne` | src/domains/notify/embed.rs:118-157 | one ticket adds its face value, its USD value if that is above zero, and one ticket to its own gateway |
| `DigestTotals.PriceOfOne` | src/domains/notify/embed.rs:136-146 | the price one ticket adds to those the median is taken of |
| `DigestTotals.SanePriceExactly` | src/domains/notify/embed.rs:422-443 | a ticket's price is that of its own two amounts if above 100, whatever the explorer says, else the explorer's if above 100, else none |
| `DigestTotals.GatewaysSumBack` | src/domains/notify/embed.rs:128-150 | counts and totals per gateway sum back to the job's |
| `DigestTotals.TopThreeAreTop` | src/domains/notify/embed.rs:159-163 | no gateway left out paid more than one that is shown; three are shown, or all |
| `DigestTotals.HighestFirst` | src/domains/notify/embed.rs:159-163 | they are shown with the highest first |
| `DigestTotals.MedianIsMiddle` | src/domains/notify/embed.rs:445-451 | half of the prices, rounded down, are no higher than the median and the rest no lower |
| `Calendar.NextDay` | src/domains/scheduler/summary_poster.rs:186-210 | stepping to the next day and back is the identity over month ends and leap years, and moves the day number by one |
| `Calendar.DayNumbersOrder` | src/domains/scheduler/summary_poster.rs:186-210 | the day number is the calendar order, and no two dates share one |
| `Calendar.WeekdayAnchor` | src/domains/scheduler/summary_poster.rs:193-198 | 1 January 1970 was a Thursday, and is day 0 |
| `Calendar.WeekdaySteps` | src/domains/scheduler/summary_poster.rs:193-198 | the weekday of the next day is the next weekday, over month ends and leap years |
| `Calendar.MondayExactly` | src/domains/scheduler/summary_poster.rs:193-198 | a day is a Monday if and only if it is a whole number of weeks from Monday 5 January 1970 |
| `Calendar.MonthLengths` | src/domains/scheduler/summary_poster.rs:199-206 | how long each month is, and in which years February has 29 days |
| `Calendar.MonthsOf2024` | src/domains/scheduler/summary_poster.rs:186-210 | on which weekday each month of 2024 began, counted from the anchor |
| `SummaryPeriods.LastClosedIsWhole` | src/domains/commands/orchestrator.rs:370-393 | the last closed period is a whole day, week or month that ends the day before the current one starts; the period window shown to users is the same range |
| `SummaryPeriods.WholeWeekExactly` | src/domains/scheduler/summary_poster.rs:193-198 | a whole week is seven days from a Monday, counted from the anchor |
| `SummaryPeriods.WeekBeforeJune5` | src/domains/commands/orchestrator.rs:370-393 | on 5 June 2024 the last closed week is Monday 27 May to Sunday 2 June |
| `SummaryPeriods.MonthBeforeJune` | src/domains/commands/orchestrator.rs:370-393 | and the last closed month is May; on 1 March 2024 the last closed day is 29 February |
| `SummaryPeriods.LastClosedExactly` | src/domains/scheduler/summary_poster.rs:186-210 | a whole period is the last closed one if and only if the current period starts the day after it ends |
| `SummaryPeriods.PeriodsTile` | src/domains/scheduler/summary_poster.rs:186-210 | overnight the last closed period stays or becomes the one that starts the day after it ended; it always ended before today |
| `SummaryPeriods.WholePeriodsAreDisjoint` | src/domains/scheduler/summary_poster.rs:186-210 | no two periods of one cadence overlap |
| `SummaryPeriods.LastClosedAscends` | src/domains/scheduler/summary_poster.rs:186-210 | a later day never has an earlier last closed period |
| `SummaryGate.GateWindow` | src/domains/scheduler/summary_poster.rs:54-76 | the time since the close is never negative and always less than the length of the current period |
| `SummaryGate.SinceCloseExactly` | src/domains/scheduler/summary_poster.rs:60-76 | it is the time since the first midnight of the period the clock is in |
| `SummaryGate.EveryEffectIsProper` | src/domains/scheduler/summary_poster.rs:54-161 | over any run nothing is sent or recorded before close plus settlement; the incomplete footer is there exactly when fewer rows are priced than counted, and then the deadline has passed |
| `SummaryGate.AttemptDoesExactly` | src/domains/scheduler/summary_poster.rs:46-161 | which effects an attempt has, effect by effect: the floor of its own cadence, the deadline, the pricing and the failure decide |
| `SummaryGate.RecordedIsFinal` | src/domains/scheduler/summary_poster.rs:56-58 | once a period is recorded nothing more happens for it, so each is recorded at most once |
| `SummaryGate.PostedBeforeIsLeftAlone` | src/domains/scheduler/summary_poster.rs:56-58 | periods recorded before the run are left alone |
| `SummaryGate.SentThenRecorded` | src/domains/scheduler/summary_poster.rs:160-161 | an accepted summary is recorded by the next write unless that write fails |
| `SummaryGate.SentOnceUnlessMarkIsLost` | src/domains/scheduler/summary_poster.rs:46-161 | over any run the summary of a period is sent exactly as often as an accepted one was not recorded, and once more if it ends up recorded; not at all if it was recorded before |
| `SummaryGate.SendIsOnlyOne` | src/domains/scheduler/summary_poster.rs:56-161 | an attempt sends one summary at most, that of its own period, and records it or is cut off right after |
| `SummaryGate.PeriodsAscend` | src/domains/scheduler/summary_poster.rs:46-161 | while the clock does not go back each cadence records its periods in calendar order |
| `SummaryGate.ReadyPeriodIsPosted` | src/domains/scheduler/summary_poster.rs:46-161 | an attempt that finds its period settled and priced, or overdue, leaves it recorded |
| `SummaryGate.UnreadyIsRemembered` | src/domains/scheduler/summary_poster.rs:122-126 | a rollup that is not fully priced is stored for the next look |
| `SummaryGate.DocumentedExactly` | src/config.rs:140-147 | over every run: a summary sent as complete meets what the configuration documents if and only if the explorer is not behind the bot, the run began with this very rollup stored, and no attempt has stored another since |
| `SummaryGate.NeverDocumented` | src/config.rs:140-147 | from a store whose observations are not fully priced, as all the poster writes are, no summary sent as complete meets it |
| `SummaryGate.SeenTwiceMeansFailed` | src/domains/scheduler/summary_poster.rs:96-117 | if an earlier look at the period saw the figures that are later sent as complete, its send or its mark failed |
| `SummaryGate.BehindIsSent` | src/domains/scheduler/summary_poster.rs:104-111 | one ticket at the explorer and two at the bot: the summary is sent as complete |
| `SummaryGate.BackstopReachable` | src/domains/scheduler/summary_poster.rs:117-148 | the deadline can fire if and only if the deferral and the settlement are both shorter than the current period |
| `SummaryGate.DailyIsNeverIncomplete` | src/config.rs:185 | with a deferral of a day or more, as the 48 h default is, no daily summary is ever sent incomplete |
| `SummaryGate.EnrichedExactly` | src/domains/scheduler/summary_poster.rs:174-184 | over every rollup, fractional, negative, huge and unreadable counts included: the gate passes it if and only if every ticket counted is priced or it slips through, which is one of the stated exceptions and never both |
| `SummaryGate.SlippedIsSentComplete` | src/domains/scheduler/summary_poster.rs:117-161 | a settled rollup that slips through is sent without the incomplete footer and recorded |
| `SummaryGate.UnreadableCountPasses` | src/domains/scheduler/summary_poster.rs:174-184 | three rollups that are sent as complete and are not: no ticket count, no priced count beside 0.9 tickets, and 4.1 priced of 4.7 |
| `SummaryPoster.Poster.MaybePost` | src/domains/scheduler/summary_poster.rs:46-161 | one attempt performs `Effects`, stopping at the first failure |
| `SummaryPoster.Poster.RunOnce` | src/domains/scheduler/summary_poster.rs:27-41 | a tick makes the three attempts in turn, whatever became of the one before |
| `Subscriptions.CounterTellsHistory` | src/domains/scheduler/reward_watch_poller.rs:393-445 | over any sequence of commands and fan-outs that do not interleave: a row exists exactly while subscribed, its counter is the refusals since the last delivered message, and it is flagged exactly from the threshold up |
| `Subscriptions.AgreementExactly` | src/domains/subscriptions/repo.rs:128-198 | flag and counter agree in every such run if and only if the threshold is at least one |
| `Subscriptions.StaleFlagExactly` | src/domains/scheduler/reward_poller.rs:130-142 | one delivery, whichever of its writes fail, breaks the agreement if and only if a counted refusal reaches the threshold on a row that is not flagged and the flag was read as set earlier or the write that raises it fails |
| `Subscriptions.DeliveryExactly` | src/domains/scheduler/reward_poller.rs:120-150 | what one delivery leaves of a row, whichever of its writes fail, and when the fan-out is abandoned |
| `Subscriptions.NobodyIsAdded` | src/domains/subscriptions/repo.rs:128-154 | a delivery to someone who has left meanwhile adds no row, and their refusal counts as none |
| `Subscriptions.InterleavingDisagrees` | src/domains/scheduler/reward_poller.rs:120-150 | two interleaved fan-outs that leave counter and flag apart |
| `Subscriptions.DeliveryKeepsRows` | src/domains/scheduler/reward_watch_poller.rs:393-445 | whatever writes fail, a fan-out adds and removes no row and flags nobody below the threshold |
| `Subscriptions.SubscriptionsRepo.Insert` | src/domains/subscriptions/repo.rs:34-52 | adds a fresh row unless there is one, and says which |
| `Subscriptions.SubscriptionsRepo.Delete` | src/domains/subscriptions/repo.rs:56-69 | removes the row, and says whether there was one |
| `Subscriptions.SubscriptionsRepo.IncrementDmFailure` | src/domains/subscriptions/repo.rs:128-154 | adds one and returns the new count, zero without a row |
| `Subscriptions.SubscriptionsRepo.ClearDmFailure` | src/domains/subscriptions/repo.rs:158-176 | resets counter and flag |
| `Subscriptions.SubscriptionsRepo.SetDmBlocked` | src/domains/subscriptions/repo.rs:181-198 | sets the flag and nothing else |
| `Subscriptions.SubscriptionsRepo.DmFanOut` | src/domains/scheduler/reward_watch_poller.rs:393-445 | the loop over the listed subscribers computes `Fanned`, abandoned at the first failed write |
| `Dispatch.AtMostOnce` | src/domains/scheduler/reward_poller.rs:91-160 | however inserts, fetches and failures interleave, a subscriber is messaged about an event at most once more often than its dispatch stopped half way; once in a run whose writes succeed |
| `Dispatch.MarkedMeansTried` | src/domains/scheduler/reward_poller.rs:91-160 | over every run: when an event is marked, each user it was queued for has been sent exactly one message since its batch was queued |
| `Dispatch.SentIsLeftAlone` | src/domains/state/event_streams.rs:119-126 | once an event is marked nobody is messaged about it again |
| `Dispatch.SeededIsNeverSent` | src/seed.rs:63-78 | an event first stored as sent is never messaged to anyone |
| `Dispatch.IngestExactly` | src/domains/scheduler/cut_change_poller.rs:49-65 | a stored history row has the orchestrator and time as fetched, and is stored as sent if and only if the table held no event of that orchestrator |
| `Dispatch.SeedingSurvivesExactly` | src/domains/scheduler/cut_change_poller.rs:49-65 | after a first ingest that stopped after n inserts and one that went through, a history row is pending if and only if n is not zero and the row is past the first n |
| `Dispatch.AnnouncedExactly` | src/domains/scheduler/cut_change_poller.rs:49-65 | over every sequence of looks, cut short or not: a change stored for the first time is left to be announced if and only if an earlier look had stored something |
| `Dispatch.FirstChangeIsSilent` | src/domains/scheduler/cut_change_poller.rs:55-61 | an empty first look and then the first change: it is stored as sent |
| `Dispatcher.DmDispatcher.Store` | src/domains/state/event_streams.rs:138-167 | insert unless the id is known |
| `Dispatcher.DmDispatcher.SendAll` | src/domains/scheduler/reward_poller.rs:107-151 | the loop over one event's subscribers, skipping ids that are no number |
| `Dispatcher.NumericExactly` | src/domains/scheduler/reward_poller.rs:109-116 | whom the loop messages: the listed ids that are numbers, in the order listed |
| `Dispatcher.NumericCounts` | src/domains/scheduler/reward_poller.rs:109-116 | each as often as listed, and no other |
| `Dispatcher.MessagesExactly` | src/domains/scheduler/reward_poller.rs:91-160 | the messages of a batch go to exactly the listed subscribers of its events whose id is a number |
| `Dispatcher.DmDispatcher.DispatchOne` | src/domains/scheduler/cut_change_poller.rs:77-133 | one event: profile lookup, messages, mark |
| `Dispatcher.MarkFirstExactly` | src/domains/scheduler/reward_poller.rs:152-157 | the events reached are the ones marked, and only their flag changes |
| `Dispatcher.DmDispatcher.DispatchBatch` | src/domains/scheduler/reward_poller.rs:91-160 | the loop over a batch is a run of the machine of `Dispatch`; exactly the events reached are marked, and when it completes exactly the listed numeric subscribers of each event have been tried, once |
| `Dispatcher.EarliestFirst` | src/domains/state/event_streams.rs:88-102 | however far the work on a batch has come, no event left pending is earlier than one it has marked |
| `Dispatcher.BacklogFalls` | src/domains/state/event_streams.rs:88-102 | a batch worked through takes min(limit, backlog) events off the backlog |
| `RateGate.GateIsRespected` | src/providers/discord.rs:72-177 | over any sequence of sends and responses no request starts before a gate left by an earlier response |
| `RateGate.SendShape` | src/providers/discord.rs:76-176 | one to three requests, all but the last answered 429 or 5xx, accepted exactly when the last is answered 2xx |
| `RateGate.GivesUpAfterThree` | src/providers/discord.rs:76-176 | while every answer is 429 or 5xx a send makes three requests and fails |
| `RateGate.AcceptedExactly` | src/providers/discord.rs:76-176 | a send is accepted if and only if some attempt is answered 2xx and every one before it 429 or 5xx |
| `RateGate.LeftIsWhatWasAsked` | src/providers/discord.rs:99-161 | the gate a response leaves: the wait a 429 names, 1, 2 or 4 s after a 5xx, else the reset of a used-up bucket |
| `RateGate.StatusesExactly` | src/providers/discord.rs:116-149 | which answers are accepted and which are tried again, by status |
| `RateGate.RetryWaitExactly` | src/providers/discord.rs:119-131 | a 429 waits the seconds of its body, else of its header, else one, and never a negative time |
| `RateGate.BackoffExactly` | src/providers/discord.rs:149-152 | the wait after a 5xx starts at a second and doubles up to thirty |
| `RateGate.StartsWhenAllowed` | src/providers/discord.rs:239-254 | no request waits longer than the gate asks |
| `RateGate.OpensAtTheLater` | src/providers/discord.rs:239-254 | a request may start at the clock or the gate, whichever is later |
| `RateGate.DiscordWebhook.WaitForGate` | src/providers/discord.rs:239-254 | takes the gate and waits for it |
| `RateGate.DiscordWebhook.ReadHeaders` | src/providers/discord.rs:96-109 | what the headers do to the bucket |
| `RateGate.DiscordWebhook.Post` | src/providers/discord.rs:77-161 | one attempt |
| `RateGate.DiscordWebhook.Send` | src/providers/discord.rs:72-177 | the retry loop computes `SendFrom` |
| `RateGate.FanOutNotifier.Send` | src/providers/discord.rs:211-236 | every webhook is tried, and the result is Ok if and only if at least one accepted |
| `DelegatorDigest.NewMeansNoneEarlier` | src/domains/state/event_streams.rs:298-318 | a Bond is labelled new if and only if no stored event of its pair is strictly earlier |
| `DelegatorDigest.OnlyTheFirstIsNew` | src/domains/scheduler/subscriber_digest_poster.rs:81-97 | while the Bonds of that pair arrive in order with distinct times, at most one is ever labelled new, whenever the digests are built, and it is the earliest |
| `DelegatorDigest.EverNewExactly` | src/domains/scheduler/subscriber_digest_poster.rs:81-97 | over every history: a Bond is labelled new by a digest built after it was stored, at some time or other, if and only if no event of its pair was strictly earlier among those stored with it |
| `DelegatorDigest.BothNewExactly` | src/domains/scheduler/subscriber_digest_poster.rs:81-97 | two Bonds of a pair are both ever new if and only if neither had a strictly earlier event of the pair when it was stored, and then the second is not the later one |
| `DelegatorDigest.EqualTimesAreBothNew` | src/domains/scheduler/subscriber_digest_poster.rs:81-97 | two Bonds of a pair with equal times are both called new |
| `DelegatorDigest.ListsPartition` | src/domains/scheduler/subscriber_digest_poster.rs:80-105 | the four lists hold every Bond, Unbond and Rebond of a group once and nothing else |
| `DelegatorDigest.ListsAreExact` | src/domains/scheduler/subscriber_digest_poster.rs:81-105 | which list shows an event: Bonds first of their pair, other Bonds, Unbonds, Rebonds, each as often as it is in the group |
| `DelegatorDigest.ListsKeepOrder` | src/domains/scheduler/subscriber_digest_poster.rs:80-112 | each list keeps the order of the group |
| `DelegatorDigest.Classify` | src/domains/scheduler/subscriber_digest_poster.rs:80-112 | the classifying loop |
| `SubscriberDigestPoster.GroupByOrch` | src/domains/scheduler/subscriber_digest_poster.rs:71-74 | the groups of the hash map |
| `SubscriberDigestPoster.EachIsShownOnce` | src/domains/scheduler/subscriber_digest_poster.rs:71-118 | every pending event of an orchestrator with subscribers is shown once, in one message, in whatever order the map is walked |
| `SubscriberDigestPoster.MessagesAreAboutTheirOrchestrator` | src/domains/scheduler/subscriber_digest_poster.rs:76-118 | each message is about a visited orchestrator with subscribers and shows exactly what is pending about it |
| `SubscriberDigestPoster.ShownAtMostOnce` | src/domains/scheduler/subscriber_digest_poster.rs:59-179 | over any run an event is shown at most once more often than a tick was abandoned after showing it |
| `SubscriberDigestPoster.TickShows` | src/domains/scheduler/subscriber_digest_poster.rs:59-179 | a tick that finishes has shown each event it marks once, if its orchestrator has subscribers |
| `SubscriberDigestPoster.MarkedExactly` | src/domains/scheduler/subscriber_digest_poster.rs:177-178 | over every run an event is marked if and only if some tick finished with it in its batch, or it was marked at the start |
| `SubscriberDigestPoster.StoredExactly` | src/domains/state/event_streams.rs:211-245 | over every run the table holds, under each id ever inserted, the event inserted first, and nothing else |
| `SubscriberDigestPoster.Poster.PostGroups` | src/domains/scheduler/subscriber_digest_poster.rs:71-150 | the loop over the groups sends the messages of those it reaches, in its order, and keeps the ids of the whole groups it finished |
| `SubscriberDigestPoster.Poster.RunOnce` | src/domains/scheduler/subscriber_digest_poster.rs:59-179 | one tick is a step of the machine `ShownAtMostOnce` is about: what was shown is the messages of the groups reached, and the batch is marked at the very end or not at all |
| `DelegatorPages.FetchAll` | src/domains/commands/orchestrator.rs:91-115 | the paging loop ends for any server with finitely many cursors, follows no cursor twice, and returns the rows of the pages it followed |
| `DelegatorPages.TrailIsUnique` | src/domains/commands/orchestrator.rs:91-115 | those pages are the only ones a walk with that stopping rule can visit |
| `StripComments.StripSource` | tests/architecture.rs:132-153 | the index loop ends on every byte string and computes what the grammar says |
| `StripComments.SkipLine` | tests/architecture.rs:137-140 | stops at the next newline or the end |
| `StripComments.SkipBlock` | tests/architecture.rs:141-146 | stops after the next close or at the end |
| `StripComments.TokensReadBack` | tests/architecture.rs:127-153 | reading splits the source into tokens and loses nothing |
| `StripComments.TokensAreUnique` | tests/architecture.rs:127-153 | any well-formed sequence of tokens, written out, is read back, and stripping leaves its code |
| `StripComments.NoCommentIsLeft` | tests/architecture.rs:132-153 | no two neighbours of the output open a comment |
| `StripComments.OutputIsSubsequence` | tests/architecture.rs:132-153 | the output is the bytes at increasing positions of the source |
| `StripComments.StripAgainExactly` | tests/architecture.rs:132-153 | stripping the text returned once more changes nothing if and only if every byte of the source outside its comments is ASCII |
| `StripComments.NonAsciiGrows` | tests/architecture.rs:148 | a two-byte character becomes four bytes |

## Left out

- HTTP, JSON decoding, SQL text, pooling, migrations, the Discord gateway, slash-command replies, logging and metrics: each
  SQL statement is one update of a map, and every answer of the explorer, of Discord and of the clock is an input.
- Embed and message texts, colours, URLs, address shortening and `parse_fee_cut`: presentation and independent
  expressions.
- Floating-point rounding and decimal strings: amounts, stakes, prices and percentages are reals, and an unparsable
  field is an absent one. Lower-casing is that of ASCII.
- The version string that build.rs:27-29 overwrites, and keywords of JSON Schema beyond those in `Key`.
- A bare `type: "null"` left over by the rewriting, which OpenAPI 3.0.3 does not list among its types, is read as 2020-12 reads it; a `type` that is still an array is read as admitting nothing.
- The three event tables share one row type, so that a row of rewards also holds a name and a sender, and one of delegations a native price, which the program does not store.
- MeaningPreserved: asks that no union of null and a reference is in the schema, or no null in the instance; `ReferenceUnionExactly` shows that null is lost there.
- ReadingPreserved: asks that each nullable union has only annotations beside it and either a reference for its branch or a branch with an explicit type that nothing else in it keeps from null; `CollapseExact` shows that a union keeps its meaning only so.
- PruningIsInvisible: asks that no observed round is more than eight below an earlier one; by `PruningInvisibleExactly` it holds only then.
- LadderIsBounded: asks that the round is not observed again after one more than eight above it; by `LadderBoundedExactly` the bound holds only then. Of the clock it asks nothing.
- MissedIsSentOnce: counts a fan-out as one message whoever it reached.
- StampsAreWrittenOnce: asks that the round's rows are not pruned, since a row pruned and made anew gets a new stamp; `StampsLastEightRounds` gives the runs in which they are not.
- The per-tick profile cache of the reward watch: the two passes of a tick may see different answers in the model, which covers the cache.
- A tick whose rounds index is empty or unparsable does nothing and is not part of a run.
- CounterTellsHistory: is about runs whose database writes succeed and whose fan-outs and commands do not interleave; `DeliveryKeepsRows` and `StaleFlagExactly` say what remains otherwise.
- IdsUniqueExactly: is about the operations listed under `paths`; those inside callbacks and webhooks, which the rewriting never visits, are not counted.
- AnnouncedExactly: takes the ids an orchestrator's history lists to be its own.
- Subscriptions carry no creation time and no per-user cap.
- CrashesLeaveNoTrace: is about one stream and its cursor, and asks that both pollers have caught up: a completed run over full pages, or as many completed runs as the log is long, each over pages that move on (`CursorCatchesUp`). That three delegation streams fill one table, whose ids differ, and that the poster marks rows meanwhile is left to `ExactlyOnce` and to the ids.
- The write to `delegator_history`, and the seeding loop that fills it: nothing modelled here reads that table.
- The explorer's pages are read from a log that only grows while the poller runs.
- OnlyTheFirstIsNew: asks that a pair's Bonds are stored in order with distinct times; `EverNewExactly` says what holds of every history.
- ExactlyOnce: counts a send as delivered when some webhook accepted it; a send that some webhooks rejected is not repeated for those.
- ShownAtMostOnce: counts a group whose messages were cut short as shown.
- GateIsRespected: a send that is cancelled while it sleeps, which would forget the gate it took, is not modelled; nor is a clock that goes back, which Rust's `Instant` excludes.
- NaN, infinite and overflowing waits in Discord's headers.
- The wall-clock alignment of the digest window (`next_boundary`), rolling 24 h totals, fallback profiles and the retry loop of the explorer client.
- Years outside the range of the original's date type.
- Task spawning, signals and shutdown: processes interleave statement by statement where more than one touches a table.
