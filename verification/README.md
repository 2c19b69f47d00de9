# Memory Bank: a model of its durable queue, its memory graph and its config rewriters

Memory Bank receives conversation fragments over HTTP, groups them into turns in two SQLite tables, and hands each
finished turn to an actor that turns it into a memory with an embedding, links and updates of neighbouring memories. Its
command-line tool writes itself into other programs' configuration files. This project models the parts of it whose
guarantees span several functions, and proves those guarantees for every run and every input.

## The parts

**The queue and its dispatcher** (`Tables`, `Replay`, `Staging`, `Deliveries`, `Envelopes`, `Dispatch`, `Schema`,
`History`, `Service`, `Outcomes`, `Guarantees`). Every transaction or statement of the ingest store is a function from
tables to tables, with the source's SQL conditions as predicates. `Service` puts them into one transition system
together with the dispatcher's program counter, the wake-up permit, the notifications under way, the jobs handed to the
actor, the drafts it has prepared, and the memory graph. An event is one transaction, one guarded update, or one step
that touches no table: an ingest call, a claim, a prepared or a persisted job, an answer (right, wrong or lost), a
database error, a crash, a restart, time passing. Jobs and drafts are never forgotten, so that the actor may prepare and
persist any of them at any later time, also twice and also after a crash. `Guarantees` states what holds in every state
any sequence of events can reach. `Deliveries`, `Envelopes` and `Outcomes` say column by column what a delivery and each
end of a dispatcher's round leave in the tables, in terms of the envelope, the claimed row and the actor's answer.

**Waiting and finishing** (`Wakeup`, `Handshake`, `Draining`, `DrainingRuns`, `Progress`, `Attempts`, `Limits`, with
`FirstTurns` for the deliveries their runs start with). That the dispatcher is not left asleep next to a claimable turn;
that its rounds come to an end; how far the attempt counter goes; and runs that show what the service does not promise.

**The memory graph** (`MemoryGraph`, `Retrieval`, `Reindex`, `Upgrade`). The vector index agrees with the rows it was
computed from, links are symmetric between existing memories, retrieval expands links once and keeps the order it was
asked for, and a rebuild of the index survives crashes, after which the service goes on under the new encoder with the
guarantees it had. The encoder is an arbitrary function of content, keywords, tags and context; the nearest neighbours
are an arbitrary list of ids.

**The classes** (`IngestStores`, `IngestDispatchers`, `MemoryDbs`, `SecretStores`) carry the tables in mutable fields
and follow the source's methods statement by statement and loop by loop. Each of their methods is proved to have the
effect of the function of the same step, so what is proved of the functions holds of them.

**Text** (`Texts`, `CodexToml`, `CodexTomlShapes`, `CodexTomlWritten`, `CodexTomlRest`, `CodexTomlMerge`,
`CodexTomlReturns`, `CodexTomlExact`, `CodexConfigurator`, `Shell`, `CodexHooks`, `CodexHooksExact`, `Secrets`,
`SecretLines`, `SecretJson`). The rewriter of Codex's `config.toml` leaves the rest of the file alone, and running it
again changes nothing exactly when a stated condition holds; the rewriter of the hooks file always reaches a fixed point
in one step; the hook command is read back by a POSIX shell as the words it was built from; the secrets file is read
back exactly when `Secrets.Intact` holds. What lines, headers, quotations and JSON strings look like is told by their parts,
apart from the functions that look for them, and the two are proved equal.

## How things are represented

- Row ids are sequence positions. Both ingest tables and the memory table use AUTOINCREMENT keys, nothing is deleted, and a
  rolled back insert gives its key back.
- Time is an integer. The code compares RFC 3339 strings in SQL; their order is taken to be the order of time (section 5.1
  of RFC 3339).
- History variables in `Service.System`: `claimed`, the turns ever claimed, and `origin`, the turn each memory came from.
- The retry delay is an arbitrary natural number; the turn waits it out (`Outcomes.RetryWaits`).
- `char` is a Unicode scalar value, as in the source. Which characters `Debug` prints as themselves is a parameter of the
  secrets model, of which only the ASCII range is fixed.

## Where the code does less than one might expect

These are stated and proved as such:

- `attempt_count` is not bounded by `max_processing_attempts`: recovery adds to it without looking, and can bring it to any
  number (`Attempts.AttemptsPassAnyCap`). It exceeds the cap exactly when some recovery found the turn in processing with its
  attempts used up (`Attempts.CapExactly`). What is bounded in every run is the number of dispatches
  (`Guarantees.BoundedDispatch`).
- A wake-up can be lost when a conversation mixes fragments with and without turn ids, because an abort can unblock a later
  turn without notifying (`Limits.MixedConversationLosesWakeup`; exactly when, for a delivery during any ordinary sleep:
  `Wakeup.LostWakeupExactly`).
- A persist does not notify either. If it stores a turn while the dispatcher sleeps, the turn behind it stays unclaimed
  (`Limits.LatePersistLosesWakeup`; exactly when: `Wakeup.LatePersistExactly`). Only an actor that persists after its caller
  gave up on it can do this; the actor of the source replies after its commit, and the dispatcher waits for the reply without
  a timeout, so within one process it does not.
- A rebuild of a missing vector table under an unchanged encoder does not survive a crash (`Reindex.CrashSafeExactly` gives
  the exact condition), and neither does one that the user reverts half way (`Reindex.RevertSafeExactly` says for which
  interruptions a revert is safe).
- Rewriting Codex's `config.toml` a second time can change it again. A line such as `[ [x]`, in a nested array or in a string
  over several lines, is taken for the header `[x` and printed as `[[x]`, which is no header any more, so that the lines
  after it belong to another section at the second run (`CodexTomlExact.UnsettledChangesAgain` is a valid TOML text on which
  this shows; `CodexTomlExact.ConfigureTwiceExactly` gives the exact condition for every text).
- A secret is not read back when its key is not fit for a line or its value holds a character whose `Debug` escape JSON does
  not know (`Secrets.FileRoundTrip` gives the exact condition; `Secrets.NulIsLost` is a store that is lost).

## Model

| member | source | states |
|---|---|---|
| Guarantees.ExactlyOnce | memory-bank-server/src/actor.rs:896-958 | In every reachable state each turn has exactly one committed memory if it is stored and none otherwise, with that turn's rendered projection and finalization time |
| Guarantees.MemoriesInTurnOrder | memory-bank-server/src/db.rs:812-819 | Within a conversation memory ids are ordered as turn indexes, both ways |
| Guarantees.StoredForGood | memory-bank-server/src/ingest.rs:615-702 | Once stored, a turn's row and its memory's content stay the same whatever events follow |
| Guarantees.InOrder | memory-bank-server/src/ingest.rs:1567-1586 | A turn that was ever claimed, or is past finalized, has only stored, aborted or exhausted turns before it in its conversation |
| Guarantees.OneProcessingPerConversation | memory-bank-server/src/ingest.rs:540-554 | Two turns of one conversation in processing are the same turn |
| Guarantees.FailureBlocksForever | memory-bank-server/src/ingest.rs:642-663 | A failed turn stays failed, and no later turn of its conversation is ever claimed or dispatched |
| Guarantees.StableHistory | memory-bank-server/src/ingest.rs:568-613 | From a turn's first claim on its window is the same after any further events, and it is the chronological list of earlier stored turns or its last entries |
| Guarantees.SameJobEveryTime | memory-bank-server/src/ingest.rs:894-1018 | All dispatches of one turn over a run carry the same window and timestamp |
| Guarantees.CachedEqualsReplay | memory-bank-server/src/ingest.rs:466-538 | An open turn's terminality ranks as high as any of its fragments' and is one of theirs, and is not hard; a finalized turn's projection is the fold of exactly its fragments in query order |
| Guarantees.ProjectionIsFinal | memory-bank-server/src/ingest.rs:1555-1565 | After finalization neither projection nor finalization time changes again |
| Guarantees.RedeliveryIsHarmless | memory-bank-server/src/ingest.rs:333-408 | An accepted fragment id delivered again at any later point leaves the tables alone and reports the original turn index as a duplicate |
| Guarantees.RefusedDeliveryLeavesNoTrace | memory-bank-server/src/ingest.rs:410-437 | A delivery that is not accepted changes nothing but the notifications under way, which grow by one exactly when it repeats a fragment of a finalized turn |
| Guarantees.BoundedDispatch | memory-bank-server/src/ingest.rs:894-911 | No turn is dispatched more than the maximum number of times, whatever crashes and recoveries happen |
| Guarantees.GraphStaysSound | memory-bank-server/src/actor.rs:677-812 | In every reachable state each memory's embedding is the encoding of its current row, index keys are memory ids, and links are symmetric, irreflexive and between existing memories |
| Guarantees.PersistIsAtomic | memory-bank-server/src/actor.rs:896-958 | A persist adds its memory, exactly its links and the stored mark, and leaves each neighbour it names as the last update says and every other memory alone; or it changes nothing |
| Guarantees.SchemaHolds | memory-bank-server/src/ingest.rs:1431-1487 | Every reachable pair of tables satisfies the status CHECK, the unique indexes, one message per internal turn and first, aborts only of internal turns |
| Outcomes.RetryWaits | memory-bank-server/src/ingest.rs:615-640 | A turn sent back with attempts left keeps the row it then has through any events until the delay is over; from then on, and not before, it is due unless a turn is in its way |
| Outcomes.AnswerExactly | memory-bank-server/src/ingest.rs:957-1018 | After the actor's answer the turn in processing is failed with the error, finalized again with one more attempt and due after the delay, or exhausted when that attempt was the last; nothing else changes, and a turn no longer in processing is an error |
| Outcomes.ProcessExactly | memory-bank-server/src/ingest.rs:894-956 | A claimed turn with its attempts used up is exhausted with its last error or a message with the number of attempts; one without finalization time or window fails; any other is handed over as it was claimed |
| Outcomes.DecimalSpells | memory-bank-server/src/ingest.rs:1337-1339 | The number in that message is spelled in decimal digits without a zero in front |
| Outcomes.RestartExactly | memory-bank-server/src/ingest.rs:690-702 | After a restart every turn in processing is due at once, with one more attempt and its last error or a note of the interruption, and no other row changes |
| Outcomes.BackoffExactly | memory-bank-server/src/ingest.rs:868-877 | After an error the dispatcher recovers, or fails to, and sleeps for five seconds |
| Outcomes.PrepareExactly | memory-bank-server/src/actor.rs:631-812 | Preparing a job adds the draft of what the answers ask for, for the job's turn, projection and time, or fails and changes nothing |
| Service.ApplyKeepsInv | memory-bank-server/src/ingest.rs:856-1034 | Every event keeps the system invariant that the guarantees follow from |
| Service.PersistStoresOnce | memory-bank-server/src/actor.rs:940-958 | Committing a memory for a turn in processing keeps memories and stored turns in one-to-one correspondence and in turn order |
| Service.RecoverIsLegal | memory-bank-server/src/ingest.rs:1645-1653 | Recovery moves rows only along the allowed edges and charges an attempt, so that dispatches stay covered |
| Wakeup.NoLostWakeup | memory-bank-server/src/ingest.rs:245-258 | If no conversation mixes turn ids and no turn is stored behind a dispatcher asleep, a dispatcher asleep without permit or notification has no ready turn when it sleeps without deadline, and otherwise wakes no later than the first ready turn is due |
| Handshake.CarefulRunsAreOrderly | memory-bank-server/src/ingest.rs:856-880 | With true replies of success and no recovery failing over a turn in processing, the condition of NoLostWakeup holds however late or often the actor persists |
| Wakeup.DeadlineIsFirst | memory-bank-server/src/ingest.rs:1588-1599 | There is a deadline before sleeping if and only if a turn is ready; it is the next attempt of one, or now if that has passed, and no later than that of any other |
| Wakeup.WakesExactly | memory-bank-server/src/ingest.rs:1020-1034 | A sleeping dispatcher wakes when its deadline has passed or on a permit, which is then used up |
| Wakeup.NothingNewReady | memory-bank-server/src/ingest.rs:443-457 | Where turn ids are not mixed, a delivery that does not end its turn makes no turn ready |
| Handshake.EventKeepsAccounted | memory-bank-server/src/ingest.rs:856-880 | In such runs a turn in processing is the one in the dispatcher's hands, or a recovery is due |
| Wakeup.LostWakeupExactly | memory-bank-server/src/ingest.rs:443-457 | During an ordinary sleep that is in time for every ready turn, a delivery leaves a ready turn it is not in time for, and nobody notified, if and only if it is new, its hint fits, it does not end its turn, and it aborts the only turn holding such a turn back |
| Wakeup.LatePersistExactly | memory-bank-server/src/actor.rs:896-958 | During such a sleep a persist leaves a ready turn the sleep is not in time for if and only if it stores the only turn holding such a turn back |
| Limits.MixedConversationLosesWakeup | memory-bank-server/src/ingest.rs:245-258 | There is a run after which a turn is ready and the dispatcher sleeps without deadline, permit or notification |
| Limits.LatePersistLosesWakeup | memory-bank-server/src/ingest.rs:868-877 | There is a run, with a dispatcher that gave up on the actor and failed to recover, whose late persist leaves a ready turn unannounced |
| Attempts.AttemptsPassAnyCap | memory-bank-server/src/ingest.rs:1645-1653 | For every number there is a run that brings a turn's attempt count to it without one dispatch |
| Attempts.CapPassedExactly | memory-bank-server/src/ingest.rs:894-1018 | One event leaves a turn over the cap if and only if it was over it before or is a recovery that finds it in processing at the cap |
| Attempts.CapExactly | memory-bank-server/src/ingest.rs:690-702 | Over a whole run a turn's attempts exceed the cap if and only if some recovery found it in processing at the cap |
| Draining.RoundsUseWork | memory-bank-server/src/ingest.rs:882-1018 | Every round that claims a turn strictly decreases the attempts left over all finalized turns |
| Draining.DrainedWaitsBehind | memory-bank-server/src/ingest.rs:856-892 | Draining stops with nothing ready, and each finalized turn left has an open or failed turn of lower index in its conversation |
| DrainingRuns.RoundIsRun | memory-bank-server/src/ingest.rs:882-892 | A round of the drain is a run of events of the transition system |
| DrainingRuns.DrainIsRun | memory-bank-server/src/ingest.rs:856-892 | From any reachable idle state some run without deliveries, crashes and errors drains the queue as the drain does, waits for deadlines included |
| Progress.ClaimsAreBounded | memory-bank-server/src/ingest.rs:882-1018 | In every run from a reachable state in which no turn is finalized and no recovery finds a used-up turn in processing, claims made plus claims left never exceed the claims left at the start |
| Progress.SleepLeavesNothing | memory-bank-server/src/ingest.rs:856-892 | In every careful run, when the dispatcher sleeps without deadline, permit or notification, each finalized turn left has an open or failed turn of lower index in its conversation |
| IngestDispatchers.IngestDispatcher.RunOnce | memory-bank-server/src/ingest.rs:882-892 | A round claims exactly when a turn is due, has the effect of the drain's round, and uses up work |
| IngestDispatchers.IngestDispatcher.ProcessClaimedTurn | memory-bank-server/src/ingest.rs:894-1018 | The claimed row ends, column by column, as its attempts and the actor's answer say: exhausted, stored now, failed with the error, or finalized and due after the delay; and no other row changes |
| IngestDispatchers.IngestDispatcher.Drain | memory-bank-server/src/ingest.rs:856-892 | The loop ends, and leaves finalized turns only behind open or failed ones |
| Dispatch.ClaimMatchesDeadline | memory-bank-server/src/ingest.rs:1567-1599 | The claim and the deadline query pick the same row: something can be claimed exactly when the deadline has passed |
| Dispatch.ClaimExactly | memory-bank-server/src/ingest.rs:1567-1586 | The turn claimed is the due one with the earliest next attempt, of several such the one with the lowest id; it gets the start of its processing and nothing else changes; nothing is claimed if and only if nothing is due |
| Dispatch.StatementsAdvance | memory-bank-server/src/ingest.rs:1616-1653 | Every dispatcher statement moves each row only along the allowed status edges and leaves identity, projection and finalization time alone |
| Staging.StageDelivers | memory-bank-server/src/ingest.rs:333-408 | An accepted fragment is appended, reaches exactly one open row of the right identity, aborts at most the interrupted turn, and is answered with that row's index |
| Deliveries.DeliveryExactly | memory-bank-server/src/ingest.rs:333-464 | An accepted delivery stores one fragment with the envelope's id, hint, terminality and body in the one turn it belongs to, leaves that turn's row as a hard, soft or unmarked fragment makes it, gives up exactly the turn it interrupts, and changes nothing else |
| Deliveries.GoesToOne | memory-bank-server/src/ingest.rs:410-464 | There is one turn a delivery belongs to |
| Envelopes.DeliveryOrderIrrelevant | memory-bank-server/src/ingest.rs:333-408 | The same fragments with distinct hints for a new turn with an id, delivered in two orders that both end with a hard one, leave the same projection |
| Envelopes.ProjectionFromEnvelopes | memory-bank-server/src/ingest.rs:466-488 | That projection holds the envelopes' messages and steps in the order of their hints |
| Staging.StageBranches | memory-bank-server/src/ingest.rs:1250-1263 | The insert conflict and the missed updates never happen: a fragment not yet known is never reported as a duplicate or as a missing row |
| Staging.RefusalChangesNothing | memory-bank-server/src/ingest.rs:410-437 | A refused or repeated delivery leaves both tables as they were |
| Schema.AnsweredExactly | memory-bank-server/src/ingest.rs:333-464 | A delivery is answered as a duplicate, refused for a closed turn, refused for its hint, or accepted, each if and only if the tables before it say so |
| Schema.StageKeepsValid | memory-bank-server/src/ingest.rs:333-464 | Staging keeps every table invariant whatever is delivered |
| Schema.AdvanceKeepsValid | memory-bank-server/src/ingest.rs:1567-1653 | The dispatcher's statements keep every table invariant |
| Schema.StageEvolves | memory-bank-server/src/ingest.rs:490-538 | A delivery never changes a settled, failed or finalized row, nor a row's identity |
| Schema.DeliverKeepsKeys | memory-bank-server/src/ingest.rs:1458-1468 | The three unique indexes survive an accepted delivery |
| Schema.DeliverKeepsMessages | memory-bank-server/src/ingest.rs:796-821 | A user message in an internal turn is its first arrival, and only internal turns are aborted |
| Replay.TurnRowsInOrder | memory-bank-server/src/ingest.rs:1545-1548 | The replayed rows are exactly the turn's fragments in strictly increasing (hint-null-last, hint, id) order |
| Replay.QueryOrder | memory-bank-server/src/ingest.rs:1545-1548 | Replayed rows with hints come first and by hint, rows with the same hint by key |
| Replay.SortedUnique | memory-bank-server/src/ingest.rs:1545-1548 | The query order admits one answer |
| Replay.FoldTerminality | memory-bank-server/src/ingest.rs:1271-1308 | The fold ends with the largest terminality of the turn, however rows are ordered |
| Replay.MaxIsLargest | memory-bank-server/src/ingest.rs:1271-1308 | No fragment of the turn ranks higher than the merged terminality, which is one of theirs if they have any mark |
| Replay.FoldCollects | memory-bank-server/src/ingest.rs:1271-1323 | The projection holds the non-empty messages of each side as paragraphs and the steps one by one, in row order |
| Replay.ArrivalOrderIrrelevant | memory-bank-server/src/ingest.rs:466-488 | With pairwise distinct hints the projection depends only on what arrived |
| History.WindowIsRecentHistory | memory-bank-server/src/ingest.rs:1601-1614 | The window is the chronological list of stored earlier turns, or its last entries when bounded |
| History.WindowStays | memory-bank-server/src/ingest.rs:568-613 | The window of a turn with nothing unsettled before it survives any step of the tables |
| IngestStores.IngestStore.StageFragmentOnce | memory-bank-server/src/ingest.rs:333-408 | An accepted delivery leaves fragment, row and interrupted turn as DeliveryExactly says, any other leaves both tables alone; the outcome is the staging step's, and the store stays valid |
| IngestStores.IngestStore.ResolveTurn | memory-bank-server/src/ingest.rs:410-464 | The turn found, created or created after an abort is the one the staging step resolves to |
| IngestStores.IngestStore.Write | memory-bank-server/src/ingest.rs:366-408 | Inserting the fragment and updating its turn commits exactly as the staging step concludes |
| IngestStores.IngestStore.RebuildProjection | memory-bank-server/src/ingest.rs:466-488 | The loop computes the fold of the turn's fragments in query order |
| Schema.ReduceFinalizesOnce | memory-bank-server/src/ingest.rs:510-538 | Storing a projection that ends its turn reaches only that row and only while open, fills its cached columns as a replay would, and closes it to every later update |
| Schema.MergeKeepsCache | memory-bank-server/src/ingest.rs:490-508 | Merging a new fragment's terminality reaches only its open row, leaves its identity alone, and keeps the column equal to the maximum over the fragments |
| IngestStores.IngestStore.ClaimNextDueTurn | memory-bank-server/src/ingest.rs:540-554 | The due turn with the earliest next attempt and then the lowest id goes to processing, and no other row changes |
| IngestStores.IngestStore.NextDueAt | memory-bank-server/src/ingest.rs:556-566 | There is no deadline exactly when no turn is ready; with one, a claim succeeds exactly from that time on |
| IngestStores.IngestStore.BuildWindow | memory-bank-server/src/ingest.rs:568-613 | The window is the one the history lemmas speak of |
| IngestStores.IngestStore.SelectPreviousTurns | memory-bank-server/src/ingest.rs:1601-1614 | Walking back from the turn's index collects the stored projections up to the limit |
| IngestStores.IngestStore.MarkRetryableFailure | memory-bank-server/src/ingest.rs:615-640 | Only a turn in processing is rescheduled: it is finalized with the attempts, the error and the next attempt given, no other row changes, and anything else is reported |
| IngestStores.IngestStore.MarkFailed | memory-bank-server/src/ingest.rs:642-663 | Only a turn in processing fails, with the error given and no next attempt; no other row changes |
| IngestStores.IngestStore.MarkExhausted | memory-bank-server/src/ingest.rs:665-688 | Only a turn in processing is exhausted, with the attempts and the error given; no other row changes |
| IngestStores.IngestStore.MarkStored | memory-bank-server/src/db.rs:342-355 | Only a turn in processing is stored, at the time given and without an error; no other row changes |
| IngestStores.IngestStore.RecoverProcessingTurns | memory-bank-server/src/ingest.rs:690-702 | Every interrupted turn is finalized again and due now, with one more attempt and its last error or a note of the interruption, and no other row changes |
| MemoryGraph.PrepareIsSound | memory-bank-server/src/actor.rs:631-812 | A prepared write carries encodings of the texts it will leave behind, refined tags included, and links only to known neighbours |
| MemoryGraph.PrepareExactly | memory-bank-server/src/actor.rs:677-812 | A prepared write links exactly the suggested ids of known neighbours; has the analysis's context and keywords, and its tags unless some neighbour is known and the evolution has its own; updates the neighbours whose context or tags a suggestion changes, in suggestion order; and preparing fails if and only if these are more than the known neighbours |
| MemoryGraph.SoundStays | memory-bank-server/src/actor.rs:631-812 | A prepared write stays right however the graph grows before it is persisted |
| MemoryGraph.UpdatesKeepIndex | memory-bank-server/src/db.rs:292-341 | Neighbour updates keep rows and vectors in agreement, also several to one neighbour, and touch no other row |
| MemoryGraph.PlannedExactly | memory-bank-server/src/actor.rs:754-777 | A neighbour update is planned if and only if some suggestion for a known neighbour would change its text |
| MemoryGraph.LastUpdateWins | memory-bank-server/src/db.rs:321-341 | Each updated neighbour ends with the context, keywords and tags of its last update, content and time unchanged |
| MemoryGraph.LinksStaySound | memory-bank-server/src/db.rs:311-319 | Linking a fresh memory keeps links symmetric and irreflexive and adds exactly its own |
| MemoryGraph.PersistKeepsGraph | memory-bank-server/src/actor.rs:896-958 | Persisting a sound write succeeds, keeps index and links sound, leaves each named neighbour as its last update says, and touches nothing else but the new memory |
| MemoryDbs.MemoryDb.PrepareTurn | memory-bank-server/src/actor.rs:631-812 | The imperative preparation gives the write PrepareExactly describes, links, tags, embedding and updates, and it is sound |
| MemoryDbs.MemoryDb.PlanUpdates | memory-bank-server/src/actor.rs:748-790 | Exactly the suggestions for known neighbours that change context or tags become updates |
| MemoryDbs.MemoryDb.PrepareNeighborWrites | memory-bank-server/src/actor.rs:837-894 | Each update is paired with the encoding of its own text, unless there are more of them than neighbours |
| MemoryDbs.MemoryDb.PersistPreparedTurn | memory-bank-server/src/actor.rs:896-958 | Commits exactly when the turn is in processing; otherwise database and ingest tables are as before |
| MemoryDbs.MemoryDb.InsertLinks | memory-bank-server/src/db.rs:311-319 | Both directions of every link, or failure when an end is missing |
| MemoryDbs.MemoryDb.OrderedRetrievalIds | memory-bank-server/src/actor.rs:538-567 | No id twice, the de-duplicated nearest ids first and in order |
| MemoryDbs.MemoryDb.SortRetrievalRows | memory-bank-server/src/actor.rs:569-576 | In place, the rows become the stable sort by requested position |
| MemoryDbs.MemoryDb.MigrateEmbeddings | memory-bank-server/src/db.rs:609-653 | The chunk loop fills the table as the model of a migration that may die between chunks |
| MemoryDbs.MemoryDb.EnsureVecTable | memory-bank-server/src/db.rs:443-475 | A startup that gets through from an honest state leaves a complete index and records the target |
| Retrieval.OrderedIdsExpandOnce | memory-bank-server/src/actor.rs:538-567 | The retrieval ids are duplicate-free, start with the nearest ones, and are exactly those plus their one-hop targets |
| Retrieval.OrderedExactly | memory-bank-server/src/actor.rs:538-567 | The retrieval ids are the nearest ones, then the targets of each of these in row order, each id where it first occurs |
| Retrieval.SortedAsAsked | memory-bank-server/src/actor.rs:569-576 | Sorting the fetched rows gives each requested row once, in the requested order |
| Retrieval.RetrievalReturnsAll | memory-bank-server/src/actor.rs:453-521 | With a sound graph retrieval returns every nearest neighbour and one-hop memory once, in order |
| Reindex.RebuildSurvivesCrashes | memory-bank-server/src/db.rs:578-691 | For a new encoder, any number of startups cut short anywhere and then one that gets through leave a complete index under it |
| Reindex.StartupStaysHonest | memory-bank-server/src/db.rs:443-475 | At no point of a startup is the target recorded over an incomplete table |
| Reindex.StartupCompletes | memory-bank-server/src/db.rs:609-653 | With room for all its statements a startup gets through |
| Reindex.CrashSafeExactly | memory-bank-server/src/db.rs:504-547 | The guarantee holds if and only if the target is not yet recorded, or the table is complete, or there is nothing to index |
| Reindex.RevertSafeExactly | memory-bank-server/src/db.rs:504-547 | After a rebuild cut short at any statement, going back to the old encoder is safe if and only if nothing or all of it was done, there are no memories, or only the recording is missing and the encoders agree on every memory |
| Upgrade.IndexSurvivesUpgrade | memory-bank-server/src/db.rs:443-547 | From any reachable state, a crash-ridden change of encoder followed by any further events leaves the index in agreement with the rows under the new encoder, and the system invariant intact |
| CodexTomlExact.ConfigureTwiceExactly | memory-bank-cli/src/agents/codex.rs:127-281 | For every text, rewriting the rewritten file changes nothing if and only if none of its lines ends in a carriage return of its own and every section that is not read back is welcome in the section before it |
| CodexTomlExact.UnsettledChangesAgain | memory-bank-cli/src/agents/codex.rs:267-281 | A TOML text with a string over four lines changes again at the second run, whatever the server's URL |
| CodexTomlMerge.SplitMerges | memory-bank-cli/src/agents/codex.rs:210-232 | Read again, a section whose printed header is none becomes part of the one before it, and all others come back |
| CodexTomlReturns.StableIsClean | memory-bank-cli/src/agents/codex.rs:234-265 | A file that a second run leaves alone has no carriage return at the end of a line |
| CodexTomlRest.ConfigureKeepsTheRest | memory-bank-cli/src/agents/codex.rs:127-179 | For every text the file is its sections, edited, and nothing else: the prelude without exactly the lines that assign to features or mcp_servers, one features section with the flag set where it stood, one server section with the server's two lines, every other section's lines, in order, up to blank lines at the end of a section |
| CodexTomlRest.FeaturesExactly | memory-bank-cli/src/agents/codex.rs:188-208 | The wanted line stands where codex_hooks was first assigned, or last if it was not; later assignments are gone, and every other line is kept in order |
| CodexTomlShapes.AssignmentExactly | memory-bank-cli/src/agents/codex.rs:287-294 | A line is taken for an assignment if and only if it is blanks, the key, blanks, an equals sign and anything |
| CodexTomlShapes.ConflictExactly | memory-bank-cli/src/agents/codex.rs:283-294 | A prelude line is removed if and only if it assigns to features or mcp_servers |
| CodexTomlShapes.HeaderExactly | memory-bank-cli/src/agents/codex.rs:267-281 | A line is a header if and only if it is a text between brackets, one before and one behind, with blanks around and perhaps a comment |
| CodexTomlShapes.SplitExactly | memory-bank-cli/src/agents/codex.rs:210-232 | Every line is kept in a section or heads one, and exactly the header lines head one |
| CodexTomlWritten.ConfigureWrites | memory-bank-cli/src/toml_config.rs:50-57 | For every text the file is the wanted sections printed line by line, with one blank line after each and none at the end |
| CodexToml.SplitFlatten | memory-bank-cli/src/agents/codex.rs:210-232 | Splitting the lines of well-formed sections gives the sections back |
| CodexToml.HeaderReadsBack | memory-bank-cli/src/agents/codex.rs:267-281 | A printed header that does not start with a bracket is parsed as itself |
| CodexToml.RenderPrintsPadded | memory-bank-cli/src/agents/codex.rs:234-265 | The character-level printer prints the sections line by line with one blank line between them |
| Texts.NormalizeDropsBlank | memory-bank-cli/src/toml_config.rs:50-57 | On lines, normalization drops exactly the blank lines at the end |
| CodexConfigurator.UpsertCodexConfigToml | memory-bank-cli/src/agents/codex.rs:127-179 | The imperative rewrite gives a file as ConfigureKeepsTheRest describes, and repeating it changes nothing if and only if the stated condition holds |
| CodexConfigurator.SplitSections | memory-bank-cli/src/agents/codex.rs:210-232 | The loop splits as the model does, and no line is lost |
| CodexConfigurator.UpsertFeatures | memory-bank-cli/src/agents/codex.rs:188-208 | The loop sets the flag where it was first assigned, or last, and keeps every other line |
| CodexConfigurator.RenderSections | memory-bank-cli/src/agents/codex.rs:234-265 | The loop prints as the model does |
| CodexConfigurator.UpsertAll | memory-bank-cli/src/agents/codex.rs:127-179 | The loop with its two flags edits the sections as the model does |
| Shell.HookCommandReadsBack | memory-bank-cli/src/agents/shared.rs:5-18 | By POSIX shell rules the hook command is its seven words, whatever NUL-free text they hold |
| Shell.LexQuoted | memory-bank-cli/src/command_utils.rs:148-151 | An escaped value is one shell word equal to the value |
| CodexHooks.BuiltCommandIsOwned | memory-bank-cli/src/agents/codex.rs:117-125 | The installer recognises the command it writes |
| CodexHooks.UpsertInstalls | memory-bank-cli/src/agents/codex.rs:48-70 | Installing an owned hook twice is the same as once, whatever JSON was there |
| CodexHooks.UpsertKeepsForeign | memory-bank-cli/src/agents/codex.rs:72-103 | Afterwards an event has its foreign hooks in their order and then exactly one hook of ours |
| CodexHooks.UpsertIsLocal | memory-bank-cli/src/agents/codex.rs:48-70 | Whatever stands under other events and other keys stays as it was |
| CodexHooks.InstallTwice | memory-bank-cli/src/agents/codex.rs:27-46 | Running the whole installation again leaves the file of the first run |
| CodexHooksExact.InstallExactly | memory-bank-cli/src/agents/codex.rs:27-46 | Afterwards each of the four events has the groups with foreign hooks, in order and each with exactly those, and then one group of ours, for Bash only on the two tool events; other events and keys are as they were |
| CodexHooksExact.OwnedExactly | memory-bank-cli/src/agents/codex.rs:117-125 | A command is ours if and only if it names the agent and the event, quoted or bare |
| CodexHooksExact.ForeignExactly | memory-bank-cli/src/agents/codex.rs:72-95 | A hook is kept if and only if it is an object without a command of ours |
| CodexHooks.UpsertHookInto | memory-bank-cli/src/agents/codex.rs:48-70 | The loop over the groups installs as the model does, and is stable for owned commands |
| CodexHooks.RepairExactly | memory-bank-cli/src/agents/codex.rs:72-95 | A repair keeps exactly the foreign hooks of a group, in order, and every other field, and is idempotent |
| Secrets.ValueRoundTrip | memory-bank-app/src/lib.rs:523-545 | A value is unescaped to itself if and only if all its Debug escapes are known to JSON |
| Secrets.LineRoundTrip | memory-bank-app/src/lib.rs:452-488 | A line gives back its key and value if and only if both are fit for a line |
| Secrets.FileRoundTrip | memory-bank-app/src/lib.rs:442-488 | Loading the saved file gives the same map if and only if all keys and values are fit and the first key has no byte order mark |
| Secrets.NulIsLost | memory-bank-app/src/lib.rs:523-545 | A store whose value is NUL is not read back, whatever its key |
| Secrets.OwnLine | memory-bank-app/src/lib.rs:466-488 | When a file is read back as it was, each key comes from the line written for it |
| Secrets.KeyShortens | memory-bank-app/src/lib.rs:547-552 | A parsed key is no longer than the one written, and of the same length only if it is the same |
| Secrets.EscapeExactly | memory-bank-app/src/lib.rs:523-529 | A value of harmless characters is written bare, any other between double quotes |
| SecretLines.LineExactly | memory-bank-app/src/lib.rs:466-488 | A line holds a secret if and only if it is a key and a value around an equals sign, perhaps after export, with blanks around each; comments and lines without a key hold none |
| SecretLines.PlainLines | memory-bank-app/src/lib.rs:523-552 | A text written bare, or between single quotes with its quotes and backslashes escaped if it has any, is read as that text, after export or not |
| SecretLines.SingleQuoted | memory-bank-app/src/lib.rs:538-542 | Any text can be written between single quotes, a backslash before each quote and each backslash; other texts stand there as they are |
| SecretLines.ReplaceExactly | memory-bank-app/src/lib.rs:538-542 | A replacement splits the text at the occurrences found from left to right and puts the new text between the pieces |
| SecretLines.DoubleQuoted | memory-bank-app/src/lib.rs:531-536 | Between double quotes is a JSON string, and if it is none the inside is taken as it stands |
| SecretLines.LoadExactly | memory-bank-app/src/lib.rs:442-488 | A loaded file has the keys its lines hold, each with the value of the last such line, behind at most two byte order marks |
| SecretJson.JsonExactly | memory-bank-app/src/lib.rs:531-536 | The JSON strings accepted are those of RFC 8259, section 7, with the text each spells, surrogate pairs included |
| SecretStores.SecretStore.Parse | memory-bank-app/src/lib.rs:466-488 | The loop over the lines collects the secret on each, the last of a key winning |
| SecretStores.SecretStore.Save | memory-bank-app/src/lib.rs:452-464 | The text written is the model's, and is read back as the store exactly when it is intact |

## Left out

- Wakeup.NoLostWakeup: excludes deliveries that mix turn ids in a conversation and persists behind a sleeping dispatcher; both
  exclusions are needed, as the two runs of `Limits` show. An ingest call is taken to reach its notification unless the
  process dies.
- CodexTomlExact.ConfigureTwiceExactly: takes a server URL without line breaks, as every URL is.
- IngestStores.IngestStore.StageFragmentOnce: a unique-index violation or a lock error between concurrent writers aborts the transaction and is
  retried by the source; here that is the absence of a step.
- MemoryDbs.MemoryDb.EnsureVecTable: dropping, creating and recording are one statement each, and a chunk is one transaction; dimension probing and
  the language-model id recorded beside the encoder are not modelled.
- MemoryDbs.MemoryDb.PersistPreparedTurn: a rollback restores the fields; the transaction log of SQLite is not modelled.
- Shell.HookCommandReadsBack: the shell is modelled for words, quotes and blanks; anything that would be more than a plain list of
  words makes the lexer give up, so the lemma also says that nothing of the kind occurs.
- SecretStores.SecretStore.Save: takes the order in which the map yields its keys as an argument; the sorted order of the source is one such order.
- SecretStores.SecretStore.Parse: reading and writing the file itself, permissions and renames. `get`, `set` and `remove` are single
  map operations.
- Language-model calls, the encoder, sqlite-vec, HTTP, MCP and proxy code: their answers are arbitrary values.
- SQLite lock contention, connection pools and retries: a failed attempt rolls back.
- Exponential backoff beyond the retry time not being before now: the iterator is part of another library.
- Validation of the ingest schema text, enum and string conversions, logging, JSON and Markdown rendering: easy members; projections
  are carried as values and their rendering is a parameter.
- Creation and update timestamps and raw JSON columns that no query reads.
- The installation of Claude's hooks and MCP server.
- `load_toml_config`, backups, command-line parsing, setup prompts, service management, asset copying, config get and set.
