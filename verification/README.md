# Lotide in Dafny

A model of the parts of the lotide server where state machines, protocols and rewrites have to keep
promises over whole runs, with proofs of those promises:

- the background queue of `src/worker.rs`: four lanes, crashes, the reset at start, cleanup, janitor and
  scheduled enqueuers, all changing the rows of one table, one SQL statement at a time;
- the Follow / Accept / Undo protocol between two servers (sections 7.5, 7.6 and 7.12 of the W3C
  ActivityPub Recommendation), with the activity ids that lotide really builds;
- the printer and parser of local object URIs, with its routing trie, integers and base URL;
- the link-inserting markdown rewriter, the paging of likes, the cached like counter, the image-to-link
  rewriting of HTML trees, and the JSON compatibility rewrites.

`dafny verify dfyconfig.toml` checks everything.

## How it is built

One module for each component, in the form of the source. What updates rows or lists step by step is a class
or a method with a loop (`TaskTables.TaskTable`, `Cleanup`, `Janitor.Keeper`, `LikeCounter.LikeStore`,
`FollowServers.Servers`, `Markdown`, `JsonCompat`, `LikesPaging`, `ImageRewriter.Node`), proved against functions on
values; lemmas then say what those functions mean. Runs are sequences of events from an initial state, and the
main results hold for all of them. What a statement, an order or a rewriting comes to is said a second time without
the functions that the model computes it with, in terms of fields, characters and nodes, and proved equal. The
classes `TaskTables.TaskTable` and `FollowServers.Servers` carry the invariants of those runs as their `Valid()`, so that calls of their methods are
such runs.

| file | what it models |
|---|---|
| `Tasks.dfy`, `Lanes.dfy`, `LaneOrders.dfy`, `TaskTable.dfy`, `Utf8.dfy` | rows of the queue, the statements that change them, the four orders in which they are taken |
| `QueueRuns.dfy`, `AnyResets.dfy`, `QueueProperties.dfy` | runs of the queue: invariants, budgets, discarded payloads, back-off, draining |
| `TerminalErrors.dfy`, `TerminalWords.dfy` | the classifier of errors and the pattern list of the janitor |
| `Batches.dfy`, `Cleanup.dfy`, `Janitor.dfy`, `Repairs.dfy`, `Titles.dfy`, `Texts.dfy` | limited batches, retention, the janitor's repairs |
| `Enqueue.dfy`, `Producers.dfy` | recurring work is never queued twice, and is queued when it is due |
| `FollowProtocol.dfy`, `FollowServers.dfy` | the follow protocol, and each server's statements |
| `Trout.dfy`, `PercentCoding.dfy`, `LocalObjectRef.dfy`, `PrintedPaths.dfy`, `UriRoundTrip.dfy`, `Decimal.dfy` | the router, the 32 kinds of local references, the round trip |
| `Markdown.dfy`, `MarkdownLinks.dfy`, `LikesPaging.dfy`, `Posts.dfy`, `LikeCounter.dfy`, `LikeEffects.dfy`, `JsonCompat.dfy`, `JsonEffects.dfy`, `ImageLinks.dfy`, `ImageRewriter.dfy` | the smaller cores |

## Hypotheses and findings

- *Quiet resets.* `run_worker` starts all lanes together, but only the general lane resets interrupted rows. Runs
  of the queue let the other lanes take rows before that. Every state of a run is safe if and only if each reset
  happens while no lane is at work (`QueueProperties.QueueSafety`). Back-off and the number of starts do not depend
  on that (`QueueProperties.BackOff`, `QueueProperties.StartsWithinBudget`); payloads, draining and the class
  `TaskTables.TaskTable` are stated for runs with quiet resets. Otherwise two lanes can hold one row
  (`QueueProperties.TwoLanesOneTask`) and attempts can exceed the budget (`QueueProperties.OverBudget`), exactly in
  the runs of `QueueProperties.LanesApartExactly` and `QueueProperties.AttemptsFitExactly`.
- *Retries by administrators* (`src/routes/api/mod.rs:2270-2276`) are events of every kind of run. They give a row a
  new budget, so "started at most `max_attempts` times" is per enqueue or retry. They are the one way to queue the
  same recurring work twice: in runs with quiet resets nothing is ever queued twice if and only if every retry is of
  a row that has no key or a key that nothing active has (`Enqueue.ActsKeepExactly`, `Enqueue.RetryQueuesTwice`).
- The janitor's repairs do not create work for each other, and only two get in each other's way: an inbox task that
  is given up is not there to be completed as irrelevant. A pass is exactly ten sets of rows, one after the other,
  and its report is their sizes (`Janitor.Keeper.RunJanitor`).
- Retention settings lie in the ranges that the migrations put on the site table (`Cleanup.InRange`); attempts
  start at zero, budgets are at least one (`migrations/20200703211425_tasks/up.sql`), and the clock never goes back.
- The printed URI of a reference can be read back exactly when the base URL has no query, no fragment and no
  slash at the end of a longer path; otherwise nothing can (`UriRoundTrip.RoundTrip`).
- The readback lane turns the general order around on exactly the pairs that `Lanes.ReadbackContradicts` lists.
- The janitor's pattern list is wider than the classifier, in ASCII texts exactly by the three patterns made of
  error codes (`TerminalErrors.JanitorMatchesExactly`, `TerminalErrors.MatchedButRetried`). An underscore in one of
  them is a wildcard.
- The cached like counter is broken by blocking an id exactly when a counted like of a surviving local post has
  that id or is by the person with that id, whose likes are deleted along (`LikeCounter.PurgeKeepsExactly`,
  `LikeCounter.PurgeBreaks`), and by an author who arrives later exactly when more likes then count than are cached
  (`LikeCounter.AuthorKeepsExactly`, `LikeCounter.AuthorBreaks`). Counters are right all through a run if and only
  if it contains neither (`LikeCounter.CountersAreRight`).
- In the follow protocol inserting a row and stamping and sending it are separate steps, as in the program. The two
  servers stay on their way to agreement all through a run if and only if every Follow that is sent still has its
  row, every follow that the cleanup of stale communities forgets was never sent, and no activity overtakes another
  in a way that makes a difference (`FollowProtocol.ConvergesExactly`, with the exact condition for overtaking in
  `FollowProtocol.OvertakeExactly`). `FollowProtocol.UnfollowedWhileSending` and `FollowProtocol.OvertakenFollow`
  are what happens otherwise.
- The mediaType normaliser and the video rewrite do not commute: `JsonCompat.NormalizeAndVideoDiffer`, and
  exactly when in `JsonCompat.NormalizeAndVideoCommuteExactly`.

## Model

| member | source | states |
|---|---|---|
| Lanes.FindNext | src/worker.rs:77-141 | a take picks the eligible row that is first by priority and then by id, and nothing only when no row is eligible |
| LaneOrders.TakeExactly | src/worker.rs:77-272 | each lane takes a row if and only if it waits (its kind is one of the lane's, it is pending, and more than 20 e^attempts seconds have passed since it was last attempted) and every other waiting row of the lane has a later place, or the same place and a greater id; the places of all four lanes are listed by kind, attempts, age, payload and software of the host |
| LaneOrders.PlaceExactly | src/worker.rs:77-272 | every task of a lane has exactly one of these places |
| LaneOrders.WaitsExactly | src/worker.rs:77-80 | when a lane may take a task at all |
| LaneOrders.AudienceFirst | src/worker.rs:85-86 | while a delivery to an audience waits, the general lane takes the one with the lowest id |
| LaneOrders.FirstDeliveriesNext | src/worker.rs:85-87 | otherwise, while a first delivery to an inbox waits, it takes the lowest of those |
| LaneOrders.RepeatedDeliveries | src/worker.rs:86-95 | a repeated delivery waits only for deliveries, previews, and first seeds, refreshes and outboxes |
| Lanes.NextIsUnique | src/worker.rs:77-141 | no statement has two rows that it could take |
| Lanes.NextExists | src/worker.rs:77-141 | among eligible rows there always is one that comes first |
| Lanes.DiscoveryOrder | src/worker.rs:156-207 | on its kinds the discovery lane orders any two tasks exactly as the general lane does |
| Lanes.DiscoveryTake | src/worker.rs:156-207 | the discovery lane takes a row if and only if the general lane would take it from the queue restricted to discovery kinds |
| Lanes.InboxOrder | src/worker.rs:259-272 | the inbox lane never contradicts the general order; it splits its ties in one way only, stale retries before others |
| Lanes.InboxTake | src/worker.rs:259-272 | what the inbox lane takes is never behind, by general priority, anything else that it could take |
| Lanes.ReadbackContradicts | src/worker.rs:222-244 | the exact pairs of tasks whose general order the readback lane turns around |
| Lanes.ReadbackDiffers | src/worker.rs:222-244 | a queue on which the readback lane and the general lane take different readback tasks |
| TaskTables.TaskTable.Enqueue | migrations/20200703211425_tasks/up.sql:4-14 | a new task may be taken at once by every lane of its kind and has the kind, payload and budget that were given and no attempts; no other row changes, and the invariant of the queue holds on |
| TaskTables.TaskTable.TakeNext | src/worker.rs:77-141 | a free lane gets the waiting task that comes first in its order, with the payload that it was enqueued with and attempts left, or none exactly when none waits; that row is running since now without an error, nothing else changes, and the invariant holds on |
| TaskTables.TaskTable.FailTask | src/worker.rs:1286-1301 | the error text, cut to 4096 characters, is stored; the row fails for good exactly when that text is final for its kind or the attempt was the last, and can then never be taken again; otherwise it is pending and can be taken exactly when more than 20 e^attempts seconds have passed; the payload of an inbox task goes with its last attempt unless that is switched off; the invariant holds on |
| TaskTables.TaskTable.CompleteTask | src/worker.rs:1302 | the row is completed, stamped with the time and one attempt further, nothing else changes; no lane ever takes it again, its attempts are within its budget, and no other lane held it; the invariant holds on |
| TaskTables.TaskTable.ResetInterrupted | src/worker.rs:275-281 | no row is running afterwards, each that was is one attempt further, stamped with the time, pending or else failed, and no other changes; the invariant holds on if and only if no lane is at work |
| TaskTables.TaskTable.RetryFailed | src/routes/api/mod.rs:2270-2276 | exactly a failed task with its payload can be taken at once, without attempts, times or error, with the payload that it was enqueued with; any other is left alone; the invariant holds on |
| TaskTables.TaskTable.RunSweep | src/worker.rs:282-319 | a cleanup, compaction or janitor statement changes exactly the lowest matching rows by its order, as many as its limit allows, reports how many, and keeps the invariant |
| TaskTables.BatchIsOldest | src/worker.rs:282-319 | a batch leaves nothing older than what it picks: by completion for completed rows, by last attempt for failed and terminal ones, by id for irrelevant ones |
| TaskTables.TaskTable.PerformNext | src/worker.rs:1264-1305 | one round of a free lane takes its next row and performs it: the row is then completed and stamped, or failed by its cut error text as for a failure, and no other row changes; the invariant holds on, and it reports false exactly when the lane has no next row |
| TaskTables.LaneRound | src/worker.rs:1264-1358 | a round of a lane is a run of the queue: take, let time pass, succeed or fail |
| QueueRuns.StepKeeps | src/worker.rs:275-349 | every event (take, success, error, crash, each sweep, enqueue, retry) keeps the invariant of the queue, and so does a reset while no lane is at work |
| QueueRuns.RunKeeps | src/worker.rs:1249-1358 | so does every run in which each reset happens while no lane is at work |
| QueueProperties.QueueSafety | src/worker.rs:72-349 | every state of a run is safe if and only if each reset of the run happens while no lane is at work; safe means that attempts fit the state of each row, nothing was started more often than its budget for each enqueue or retry, what a lane holds is running, and no two lanes hold one row |
| QueueProperties.StartsWithinBudget | src/worker.rs:72-349 | in every run, wherever resets fall, no row is started more often than its budget for its enqueue and for each of its retries |
| QueueProperties.LanesApartExactly | src/worker.rs:1249-1358 | no two lanes ever hold one row if and only if no lane takes a row that another still works on; with quiet resets none does |
| QueueProperties.AttemptsFitExactly | src/worker.rs:329-349 | no row ever counts more attempts than its budget if and only if no lane finishes, other than with a terminal error, a row whose attempts are all counted; with quiet resets none does |
| AnyResets.StepSound | src/worker.rs:275-349 | every event, any reset included, keeps starts within the budget and within the attempts counted, consecutive starts apart by the back-off, and the last start no later than the time that the back-off is counted from |
| AnyResets.StartSound | src/worker.rs:76-80 | a start after the back-off of the attempts counted is far enough from the start before, although attempts may have been counted twice |
| QueueProperties.TakesPayload | src/worker.rs:301-348 | no run takes a row whose payload was discarded; what is taken has the payload that it was enqueued with |
| QueueProperties.DiscardedMeasuresOriginal | src/worker.rs:943-961 | discarded payloads occur in completed or failed rows only, and `original_bytes` is the number of octets of the payload as enqueued, never of a compacted one |
| Utf8.OctetsAreUtf8 | src/worker.rs:943-961 | the octets of a text are those of its UTF-8 encoding, from which it can be read back |
| QueueProperties.CompletionIsStamped | src/worker.rs:1302 | over all runs with quiet resets: a row that a lane finishes is completed and bears the time of that for as long as it exists |
| QueueProperties.CompletedIsStamped | src/worker.rs:1302 | in every run, every completed row bears a time that has passed |
| QueueProperties.FinishedStays | src/worker.rs:282-349 | completed and failed rows keep state and attempts until they are deleted, except for a retry of a failed row with its payload |
| QueueProperties.AfterError | src/worker.rs:329-349 | after an error a row is pending again if and only if attempts are left and the error is not terminal; a failed one can be retried unless its payload went with its last attempt, so a terminal error before that leaves the payload |
| QueueProperties.BackOff | src/worker.rs:76-80 | in every run, wherever resets fall, the start after n failures is more than 20(e + ... + e^n) seconds after the first, hence more than 20(2^(n+1) - 2), whichever lanes took the row and however attempts ended |
| QueueProperties.Drains | src/worker.rs:72-349 | without new work, the number of takes, finishes, resets and janitor steps of a run is bounded by the total weight of the rows it started with |
| QueueProperties.StepDrains | src/worker.rs:72-349 | each such step makes the total weight strictly smaller, and no other step makes it larger |
| QueueProperties.DrainedMeansIdle | src/worker.rs:72-349 | the weight is zero if and only if nothing is pending or running |
| QueueProperties.PendingIsTaken | src/worker.rs:1307-1326 | while anything is pending and the general lane is free, waiting long enough makes a take possible |
| QueueProperties.CrashThenReset | src/worker.rs:275-281 | after a crash no lane is at work and the general lane takes nothing before its reset, which ends every running row one attempt further, changes no other and keeps the invariant |
| QueueProperties.TwoLanesOneTask | src/worker.rs:1249-1262 | a run with a reset while a lane is at work in which two lanes then hold one row |
| QueueProperties.OverBudget | src/worker.rs:1249-1262 | such a run in which the attempts of a row exceed its budget |
| TerminalErrors.TerminalIsMatched | src/worker.rs:970-994 | every error text of an inbox task that the classifier calls terminal is matched by the janitor's patterns, whatever lower-casing does outside ASCII |
| TerminalWords.TerminalExactly | src/worker.rs:1173-1247 | an error is terminal if and only if its text, in either case of letters and with or without backslashes in front of quotes, says one of the listed words: for a delivery to an inbox one of five, or both "domain " and " is blocked"; for an ingestion one of twenty, or one of three error codes in JSON; for any other kind never |
| TerminalWords.DeliveryExactly | src/worker.rs:1192-1218 | a delivery is refused for good exactly by those answers |
| TerminalWords.FoundExactly | src/worker.rs:1187-1190 | words are found in the lowered text without backslashes if and only if the text itself says them so, for all texts and words |
| TerminalWords.TruncatedExactly | src/worker.rs:2260-2267 | errors are stored up to 4096 characters, and a longer one is marked |
| TerminalErrors.ThroughUnescape | src/worker.rs:1173-1247 | a text without quotes that is found after removing backslashes in front of quotes was there before |
| TerminalErrors.LikeContains | src/worker.rs:970-994 | a LIKE pattern with percent signs around a text matches everything that contains the text |
| TerminalErrors.LikeExactly | src/worker.rs:970-994 | what percent sign, underscore, backslash and every other character of a pattern match |
| TerminalErrors.JanitorMatchesExactly | src/worker.rs:970-994 | in ASCII texts the janitor matches what the worker calls terminal and what one of the three patterns made of error codes matches, and nothing else |
| TerminalErrors.OwnPatternExactly | src/worker.rs:970-994 | in every text each of the other twenty patterns matches if and only if its needle occurs |
| TerminalErrors.SurvivesUnescape | src/worker.rs:1173-1247 | a text without quotes and backslashes survives the removal of backslashes |
| TerminalErrors.MatchedButRetried | src/worker.rs:970-994 | a text that the janitor fails, by a pattern made of an error code, and the worker would retry |
| Batches.PickLowest | src/worker.rs:282-319 | ORDER BY with LIMIT: all candidates if they fit, otherwise as many of the lowest as fit |
| Cleanup.CleanupOldTasks | src/worker.rs:1825-1910 | running rows are untouched, only expired rows are deleted, at most twice the initial number of rows is reported; when it stops at an empty batch no enabled statement matches any row, and the table is the old one without the rows past their days of retention, with finished ingestions that are old enough stripped of their payload and irrelevant ones completed; and it does stop so whenever at the start no enabled statement matches more than 99 * 10000 rows, or fewer than 100 changes are reported |
| Cleanup.CleanedExactly | src/worker.rs:282-319 | what the cleanup makes of a row in the end, by its state, kind, times and payload |
| Cleanup.BatchLeaves | src/worker.rs:282-319 | a batch leaves exactly its unpicked rows to its statement and nothing new to any other |
| Cleanup.CleanupBatch | src/worker.rs:1837-1901 | one batch preserves what cleaning makes of every row, pays for each change, does a full batch of every statement that has that many rows, and changes nothing if and only if nothing matches |
| Cleanup.RunEnabled | src/worker.rs:1837-1891 | the same for one statement of a batch |
| Cleanup.CleanMeansUnmatched | src/worker.rs:282-328 | a row is clean if and only if no enabled statement matches it |
| Cleanup.SweepKeepsMeaning | src/worker.rs:282-328 | no statement changes what the cleanup makes of a row in the end, so their order does not matter |
| Cleanup.BatchSpends | src/worker.rs:1825-1910 | every change uses up part of a budget of at most two changes for each row |
| Cleanup.CleanedIsFixed | src/worker.rs:1825-1910 | cleaning twice is cleaning once, only completed or failed rows are deleted, running rows stay |
| Janitor.Keeper.RunJanitor | src/worker.rs:1935-1956 | a pass changes, repair by repair, exactly what it finds, up to 10 * 1000 rows: the database afterwards is the old one with ten sets of rows repaired in order, each set is all that matched before the pass (less, for irrelevant tasks, what was given up) or as much as the limit allows, and the report is their sizes; each counter is named by its repair; below the limit nothing is left to a repair, no repair has more to do than before, and the report is all zero if and only if nothing was to do, and then nothing changed |
| Janitor.Keeper.RunTwice | src/worker.rs:1645-1660 | when no counter of a pass is at its limit, the next pass at the same setting changes nothing and reports zeros; it reports zeros if and only if the first left nothing |
| Janitor.PassGoesOn | src/worker.rs:1935-1956 | after each repair the later ones will find exactly what they would have found at first, less what was given up, and what is done stays done |
| Janitor.Keeper.RunBatches | src/worker.rs:2037-2051 | the loop changes exactly the matching rows, or the lowest 10 * 1000 of them by its order, and comes to one change of all these rows |
| Repairs.NeedsExactly | src/worker.rs:775-1092 | which rows each of the ten repairs is for, by the fields of the rows that its statement joins |
| Repairs.ApplyMends | src/worker.rs:775-1092 | what a repair makes of the rows that it picks: missing endpoints, the number of likes, the active flag, the state of a task, the title, the times of an undo; no other field, row or table changes |
| Repairs.OldestFirst | src/worker.rs:775-1092 | a repair leaves nothing that is older than what it picked, by its own order |
| Janitor.BatchesAddUp | src/worker.rs:2037-2051 | two batches of one repair come to one batch of both |
| Janitor.RepairKeeps | src/worker.rs:775-1092 | after a batch a row needs a repair if and only if it needed it before and the batch did not settle it: its own rows, and between giving up and completing as irrelevant each other's |
| Janitor.BatchLeaves | src/worker.rs:775-1092 | a batch takes exactly its rows from what it and the repairs that it settles still have to do, and nothing from any other |
| Janitor.DiscoveriesKeep | src/worker.rs:903-942 | what was deactivated does not qualify for reactivation, nor the other way round |
| Janitor.EndpointsAreConventional | src/worker.rs:775-791 | known endpoints stay, missing ones become the actor's URL without slashes at its end and their name |
| Janitor.DeliveredIsComplete | src/worker.rs:822-851 | a local undo ends up sent and received and keeps the times that it had |
| Titles.TitledIsDone | src/worker.rs:1061-1092 | a repaired title is never blank, and is the first 80 characters of the first visible line of the content, trimmed, or the placeholder when no line is visible |
| Titles.SourceExactly | src/worker.rs:1061-1082 | the lines are those of the plain text, or else of the Markdown, or else of the HTML, without tags and carriage returns |
| Titles.StripTagsExactly | src/worker.rs:1072-1075 | text stays, a tag becomes a space, and without a closing sign nothing is a tag |
| Texts.BtrimExactly | src/worker.rs:1066-1082 | trimming takes away exactly the spaces at both ends |
| Titles.FirstVisibleFacts | src/worker.rs:1066-1082 | the line that is used is the first one that is not blank, trimmed |
| Enqueue.AtMostOneEach | src/worker.rs:532-766 | in every state of a run with quiet resets whose retries are of nothing active: one active seed of each kind, one discovery and one probe for a host, one featured fetch for a community, and one preview and one other outbox fetch for a community |
| Enqueue.ActsKeep | src/worker.rs:532-766 | every run of the enqueue statements and of all other events with quiet resets, enqueues of work without a key and retries of nothing active keeps active work unique |
| Enqueue.ActsKeepExactly | src/worker.rs:532-766 | over all runs of the enqueue statements and other events with quiet resets, retries included: active work is unique all the time if and only if every retry is of a row without a key or with a key that nothing active has |
| Enqueue.InsertedFacts | src/apub_util/mod.rs:375-422 | a statement inserts distinct keys that nothing active is about |
| Producers.InsertedExactly | src/worker.rs:532-766 | a statement inserts a candidate if and only if it is due and its limit has room behind the due ones before it |
| Producers.DueExactly | src/worker.rs:595-640 | due means that no such work is pending or running and, by its kind, none was completed within 24 hours, 7 days or 2 hours nor failed within 6 hours or 30 minutes |
| Producers.CandidatesExactly | src/worker.rs:532-766 | which keys a statement is about |
| Producers.RowsInserted | src/worker.rs:532-766 | for each inserted key there is one new pending row about it, in order, and every old row stays as it is |
| Enqueue.NoNewActive | src/worker.rs:72-349 | no event but enqueuing and retrying makes a row active or changes what an active row is about |
| Enqueue.RetryKeepsExactly | src/routes/api/mod.rs:2270-2276 | a retry keeps active work unique if and only if nothing active is about the same |
| Enqueue.RetryQueuesTwice | src/routes/api/mod.rs:2270-2276 | a reachable state in which a retry queues the same seed twice |
| FollowProtocol.ServersAgree | src/apub_util/mod.rs:1940-2028 | over all orderly runs: whenever nothing is in flight, the rows there are the stamped rows here under the same activity ids, those are accepted, and the servers agree if and only if every follow here was sent |
| FollowProtocol.AcceptedExactly | src/apub_util/ingest.rs:511-572 | over all runs, orderly or not: a follow is accepted if and only if an Accept that names it has arrived since its row was last inserted |
| FollowProtocol.StepAccepts | src/routes/api/communities.rs:1429 | a step accepts exactly the follow that an arriving Accept names, and a new row is not accepted |
| FollowProtocol.NamedExactly | src/apub_util/ingest.rs:511-572 | the URIs of a follow and of its joining, and every activity id of it, name that follow |
| FollowProtocol.ConvergesExactly | src/apub_util/mod.rs:1940-2028 | over all runs: what everything in flight comes to is all the time what is stamped here, if and only if every step is orderly |
| FollowProtocol.StepKeepsExactly | src/apub_util/ingest.rs:511-572 | an orderly step keeps the invariant of the protocol and any other step ends the convergence: a send whose row is gone, a forgotten follow that was sent, an overtaking that makes a difference |
| FollowProtocol.OvertakeExactly | src/apub_util/ingest.rs:2070-2137 | delivering an activity early changes nothing in the end if and only if for every follow the row is the same in order and early, a later Follow replaces it, or it is undone later either way |
| FollowProtocol.IndependentMayOvertake | src/apub_util/ingest.rs:2070-2137 | what concerns another follow than everything in front of it may overtake |
| FollowProtocol.FateSame | src/apub_util/ingest.rs:3127-3145 | two rows end the same if and only if they are the same, a Follow replaces them, or both are undone |
| FollowProtocol.Settles | src/apub_util/ingest.rs:2070-2137 | from every state everything in flight can be delivered, what is there then is what it all comes to, and the follows here keep their ids |
| FollowProtocol.UndoSparesNewer | src/apub_util/ingest.rs:2099-2137 | over all orderly runs: an Undo, late or repeated and in whatever order it arrives, removes a row only if that activity of that follow was undone here, and never the activity that the follow has now, also while a re-sent Follow is on its way |
| FollowProtocol.UnfollowKeeps | src/routes/api/communities.rs:1806-1843 | deleting a follow, stamped or not, and recording and sending its undo keeps the invariant |
| FollowProtocol.ForgetExactly | src/worker.rs:461-464 | forgetting a follow without an Undo keeps the servers on their way to agreement if and only if it was never sent |
| FollowProtocol.ToRemoteKeeps | src/apub_util/ingest.rs:3046-3148 | an arriving Follow or Undo keeps the invariant, and a Follow is answered with an Accept that names the same follow |
| FollowProtocol.ToLocalKeeps | src/apub_util/ingest.rs:511-572 | an arriving Accept keeps the invariant, whichever nonce its id has |
| FollowProtocol.SentTooLate | src/apub_util/mod.rs:2002-2028 | after any run, a Follow that is sent although its row is gone leaves a row there and none here when everything is delivered |
| FollowProtocol.UnfollowedWhileSending | src/apub_util/mod.rs:2002-2028 | the run insert, unfollow, send ends so |
| FollowProtocol.OvertakenFollow | src/apub_util/mod.rs:1920-1930 | a Follow that overtakes an older one of the same pair leaves different ids |
| FollowProtocol.SentTwice | src/apub_util/mod.rs:1920-1930 | and the state in which it can is reached by sending twice |
| FollowServers.QuietServersAgree | src/apub_util/ingest.rs:511-572 | two servers whose statements kept the invariant agree, when nothing is in flight, if and only if every follow here was sent |
| FollowServers.Servers.InsertRow | src/routes/api/communities.rs:1429 | a new row is neither stamped nor accepted, an existing one and all others are unchanged, nothing new is coming there, and the invariant holds on |
| FollowServers.Servers.SendActivity | src/apub_util/mod.rs:1994-2025 | what is coming there is an activity that names this follow and was never undone, and the invariant holds on if and only if the row still exists |
| FollowServers.Servers.RequestToFollow | src/routes/api/communities.rs:1429-1467 | without anything in between, a new follow is sent and an old one exactly while it is not accepted; what is coming there is the activity that the row here has |
| FollowServers.Servers.UnfollowCommunity | src/routes/api/communities.rs:1806-1843 | the follow is gone here and, once everything in flight has arrived, there, and every other follow is as it was; its undo is recorded with the id that it had, and sent by that id, or by the URI of the follow if it had none |
| FollowServers.Servers.UnfollowUntracked | src/apub_util/ingest.rs:4048-4093 | the transaction over many rows and its sends keep the invariant and come to the same as undoing one follow after another |
| FollowServers.Servers.SendUndoAgain | src/apub_util/mod.rs:2133-2198 | the same Undo is sent again, and nothing comes of it |
| FollowServers.Servers.ForgetStale | src/worker.rs:461-464 | the invariant holds on if and only if the forgotten follow was never sent |
| FollowServers.Servers.DeliverThere | src/apub_util/ingest.rs:2099-2137 | a Follow replaces the id of its row there and is accepted under its id; an Undo deletes the rows with its id, no others, and is not answered; the invariant holds on, and nothing about what everything comes to changes |
| FollowServers.Servers.DeliverHere | src/apub_util/ingest.rs:511-572 | the follow that an Accept names is accepted, every other row stays as it is, no id changes, and the invariant holds on |
| FollowServers.BulkIsOneByOne | src/apub_util/ingest.rs:4048-4093 | bulk delete, recording and sending equals one unfollow after another |
| UriRoundTrip.RoundTrip | src/apub_util/local_object_ref.rs:221-431 | for every reference and base URL, parsing the printed URI gives the reference back, with page timestamps cut to seconds, if and only if the base has no query, fragment or slash at the end of a longer path; otherwise it gives nothing |
| LocalObjectRef.CutExactly | src/main.rs:424-455 | nothing but the fraction of a second of a page is lost |
| UriRoundTrip.ParseWithSuffix | src/apub_util/mod.rs:823-836 | with any query or fragment appended it still does |
| UriRoundTrip.OtherHost | src/apub_util/mod.rs:823-836 | what continues the base URL without a slash, as the name of another host may, is not local |
| UriRoundTrip.PrintingIsInjective | src/apub_util/local_object_ref.rs:247-431 | two references print the same URI if and only if they agree up to the cut |
| UriRoundTrip.FollowIdNamesTheFollow | src/apub_util/mod.rs:1908-1938 | an activity id with a nonce parses to its follow |
| UriRoundTrip.FollowIdsDiffer | src/apub_util/mod.rs:1920-1930 | equal activity ids have the same follow and the same nonce |
| UriRoundTrip.TrailingSlashIsNotRouted | src/apub_util/mod.rs:823-836 | a base with a slash at the end of a longer path leaves a double slash that no route accepts |
| LocalObjectRef.ToLocalUri | src/apub_util/local_object_ref.rs:247-431 | pushing segments onto the clone of the base prints the path of the reference |
| LocalObjectRef.PushExactly | src/apub_util/local_object_ref.rs:247-431 | a segment is appended behind a slash, except for one of dots |
| LocalObjectRef.RoutePrinted | src/apub_util/local_object_ref.rs:11-174 | for each of the 32 kinds, the routing table takes the printed path to the reference |
| PrintedPaths.PathExactly | src/apub_util/local_object_ref.rs:221-431 | the printed path of each of the 32 kinds, written out |
| LocalObjectRef.EveryOwnLeads | src/apub_util/local_object_ref.rs:11-174 | from where its parent ends, the own segments of a reference lead to its node |
| Texts.TrimSlashes | src/apub_util/mod.rs:827-828 | the host without the slashes at its end |
| Trout.Follow | vendor/trout/src/node.rs:31-122 | routing takes exactly the steps that lead on, through literal and parsed children |
| Trout.LiteralsRefuseSlash | vendor/trout/src/node.rs:31-52 | literal children never take an empty segment |
| PercentCoding.DecodeEncode | vendor/trout/src/node.rs:31-122 | decoding a segment takes back every percent-encoding of it |
| Decimal.ParsePrint | types/src/lib.rs:17-27 | every 64-bit id survives printing and parsing |
| Decimal.ParseExactly | types/src/lib.rs:17-27 | an integer may carry either sign, at least one digit must follow, and nothing but digits may |
| LocalObjectRef.PrintedPage | src/main.rs:424-455 | a page timestamp parses back cut to whole seconds, "latest" to itself |
| Markdown.LinkifyBareUrls | src/markdown.rs:26-50 | the loop over events rewrites texts outside links and nothing else |
| MarkdownLinks.StreamExactly | src/markdown.rs:26-50 | a stream is linkified event by event: a text in front of which no link is open is, and everything else stays |
| MarkdownLinks.LinkifiedExactly | src/markdown.rs:52-97 | what precedes the first URL of a text stays, the URL without the punctuation at its end becomes a link to itself with nothing added, the punctuation stays, and so on behind it |
| MarkdownLinks.FirstMatchExactly | src/markdown.rs:1-5 | the match is the leftmost place with http:// or https:// and at least one more character, up to the next white space or bracket, and without a match there is no such place |
| Markdown.AppendLinkifiedText | src/markdown.rs:52-97 | the loop over matches appends the pieces and links of a text |
| Markdown.LinkifiedIsRewritten | src/markdown.rs:52-97 | a rewritten text is texts without URLs and links to their own text, which start with http or https and do not end in punctuation |
| Markdown.TextStays | src/markdown.rs:26-97 | the concatenated text of every stream is unchanged |
| Markdown.TagsStayMatched | src/markdown.rs:26-97 | start and end tags match after the rewriting exactly as before, with the same tags left open |
| Markdown.NoNewNesting | src/markdown.rs:26-50 | no new link is opened inside a link |
| Markdown.LinkifyIsIdempotent | src/markdown.rs:26-97 | linkifying a linkified stream changes nothing |
| Markdown.NoneBeforeFirst | src/markdown.rs:52-61 | the text in front of the leftmost match contains no match |
| LikesPaging.AllPages | src/routes/api/comments.rs:451-510 | following the cursors yields every like exactly once, later ones first and of one time those by persons with greater numbers first, on ceil(n / 30) pages of 30 except for the last, and one page when there are none |
| LikesPaging.ListLikes | src/routes/api/comments.rs:451-510 | a page is the first 30 rows that the cursor admits, the 31st becomes the next cursor, and a cursor is refused if and only if it is not two 64-bit integers with a comma between them |
| LikesPaging.SelectRows | src/routes/api/comments.rs:477-496 | the statement returns the greatest admitted rows in descending order |
| LikesPaging.CursorRoundTrip | src/routes/api/comments.rs:451-474 | a printed cursor parses back to its key |
| LikesPaging.CursorExactly | src/routes/api/comments.rs:451-474 | a text is accepted as a cursor for a key if and only if it is two texts with a comma between them that parse to the time and the person of the key |
| LikesPaging.NextPageGoesOn | src/routes/api/comments.rs:478-504 | the next cursor admits exactly the rows after the page |
| LikeCounter.CountersAreRight | src/main.rs:1474-1481 | in every run of likes, unlikes, undos, cleanups, janitor steps, remote counts, purges and arrivals of authors the counters are right all the time (exact for local posts, no lower than the likes by others for remote ones) if and only if every purge and every arrival is harmless |
| LikeCounter.StepKeepsCounts | src/apub_util/ingest.rs:1955-1973 | each step keeps the counters right if and only if it is harmless, and all but purges and arrivals are |
| LikeEffects.LikesAfter | src/routes/api/posts/mod.rs:1376-1647 | which likes are there after each step, and that no other like changes |
| LikeEffects.PostsAfter | src/main.rs:1474-1481 | which posts are there after each step, and that their rows change in the cached number, by the likes then, and in an author that was missing, and in nothing else |
| LikeEffects.CountExactly | src/main.rs:1474-1481 | the count is the number of likes of the post without the author's own, and zero without an author |
| LikeEffects.CleanupSpares | src/worker.rs:475-507 | the cleanup spares likes from here, likes of posts from here, and likes of posts that are neither deleted nor old |
| LikeEffects.PostsSpared | src/worker.rs:356-405 | the cleanup of posts spares posts from here and posts that somebody here likes |
| LikeCounter.CleanupLikesKeeps | src/worker.rs:475-507 | so does the cleanup of old likes, although its count still sees the likes that the same statement deletes |
| LikeCounter.PurgeKeepsExactly | src/routes/api/mod.rs:2710-2755 | a purge, with the posts and likes that go along with persons, communities and posts, keeps the counters right if and only if no counted like of a surviving local post carries the id or is by the person with the id |
| LikeCounter.PurgeBreaks | src/routes/api/mod.rs:2741-2749 | a run after which the purge of a person breaks the counter of a local post |
| LikeCounter.LikeStore.PurgeId | src/routes/api/mod.rs:2710-2755 | the statements of the transaction with their cascades delete exactly what belongs to the id |
| LikeCounter.AuthorKeepsExactly | src/apub_util/ingest.rs:4277 | a late author keeps the counters right if and only if there was one already or the cached number covers the likes that now count |
| LikeCounter.AuthorBreaks | src/apub_util/ingest.rs:4277 | a run after which the arrival of an author breaks the counter of a remote post |
| LikeCounter.LikeStore.RecalculateCachedPostLikes | src/main.rs:1474-1481 | the count for a local post, the greater of cached and counted for a remote one |
| LikeCounter.LikeStore.InsertLike | src/routes/api/posts/mod.rs:1376-1393 | inserts unless the person likes the post already, and recalculates only then |
| LikeCounter.LikeStore.DeleteLike | src/routes/api/posts/mod.rs:1618-1647 | deletes and recalculates, or does nothing |
| LikeCounter.LikeStore.IngestUndo | src/apub_util/ingest.rs:2099-2112 | deletes the one like with that activity id and recalculates; with two such likes it fails and nothing changes |
| JsonCompat.CompatInAnyOrder | src/apub_util/mod.rs:1429-1442 | video, date-time and group rewrites give the same in all six orders, and together are idempotent |
| JsonCompat.VideoAndDatetimesCommute | src/apub_util/mod.rs:1341-1398 | the video and date-time rewrites commute on every tree |
| JsonCompat.VideoAndGroupCommute | src/apub_util/mod.rs:1365-1427 | the video and group rewrites commute |
| JsonCompat.DatetimesAndGroupCommute | src/apub_util/mod.rs:1341-1427 | the date-time and group rewrites commute |
| JsonCompat.NormalizeExactly | src/apub_util/mod.rs:1280-1309 | afterwards no media type anywhere carries a query, and a tree is unchanged if and only if none did |
| JsonCompat.DatetimesExactly | src/apub_util/mod.rs:1326-1363 | afterwards no date-time field anywhere lacks a zone that could be added, and a tree is unchanged if and only if none did |
| JsonCompat.VideoExactly | src/apub_util/mod.rs:1365-1398 | a video with a list of URLs gets the address of its first HTML page, or else its first web address, and nothing else changes |
| JsonCompat.GroupExactly | src/apub_util/mod.rs:1400-1427 | an actor with inbox and outbox is a plain Group afterwards if and only if it was one or group-like before, and nothing else changes |
| JsonEffects.GroupBecomesPlain | src/apub_util/mod.rs:1400-1427 | exactly a value with inbox and outbox whose type is PublicGroup, or a list with Group or PublicGroup in it, gets the type Group, and nothing else changes |
| JsonEffects.NormalizeCuts | src/apub_util/mod.rs:1280-1309 | at every depth each media type with a query becomes what precedes its first question mark, and nothing else changes |
| JsonEffects.DatetimesInUtc | src/apub_util/mod.rs:1326-1363 | at every depth each date-time of five fields that parses and says nothing about a zone behind its first T gets a Z, and nothing else changes |
| JsonCompat.NormalizeIsIdempotent | src/apub_util/mod.rs:1280-1309 | the mediaType normaliser is idempotent |
| JsonCompat.DatetimesIsIdempotent | src/apub_util/mod.rs:1326-1363 | a date-time that was given its zone is not given another |
| JsonCompat.VideoIsIdempotent | src/apub_util/mod.rs:1365-1398 | the video rewrite is idempotent |
| JsonCompat.GroupIsIdempotent | src/apub_util/mod.rs:1400-1427 | the group rewrite is idempotent |
| JsonCompat.NormalizeAndDatetimesCommute | src/apub_util/mod.rs:1280-1363 | the normaliser commutes with the date-time rewrite |
| JsonCompat.NormalizeAndVideoCommuteExactly | src/apub_util/mod.rs:1280-1398 | and with the video rewrite if and only if the value is no video with a list of URLs, or the first item whose media type up to a query is text/html and that has an href has the href that the list yields as it is, or there is no such item |
| JsonCompat.ChosenAfterNormalizing | src/apub_util/mod.rs:1365-1398 | after normalising, the item that the rewrite takes is the first such page, or without one the item that it took before |
| JsonCompat.NormalizeAndVideoDiffer | src/apub_util/mod.rs:1280-1398 | a family of videos on which they differ |
| JsonCompat.NormalizeInPlace | src/apub_util/mod.rs:1280-1309 | the recursive loops compute the normalised tree |
| JsonCompat.RewriteDatetimes | src/apub_util/mod.rs:1341-1363 | the recursive loops compute the tree with its date-times rewritten |
| ImageRewriter.ProcessNode | src/main.rs:1034-1112 | the rewriting in place gives a tree in which every image is a link to its source, with its alternative text, or is left out without a source; at every depth the nodes that are no images stay the same nodes in order, what lies below a node that is no element stays as it is, and an image makes way for a new node or for none |
| ImageRewriter.KeptInOrder | src/main.rs:1090-1106 | of a list of children exactly those that are no images are left, the same nodes in the same order |
| ImageRewriter.ProcessChildren | src/main.rs:1090-1106 | the loop that removes and replaces children leaves exactly the converted children, in order, and at every depth keeps the nodes that are no images |
| ImageLinks.SurvivingImages | src/main.rs:1034-1112 | an image is left if and only if one lies below a node that is no element |
| ImageLinks.NoImageIsLeft | src/main.rs:1034-1112 | none is left when only elements have children |
| ImageLinks.OthersSurviveInOrder | src/main.rs:1034-1112 | the nodes in document order are the old ones, with every image replaced by an element a whose href is its source and whose rel is the constant, and by its alternative text, or the word Image when that is missing or empty; an image without source is left out |
| ImageLinks.ImagesBecomeLinks | src/main.rs:1034-1112 | every image in a tree, at any depth outside nodes that are no elements, becomes such a link, and nothing else changes |
| ImageLinks.FindExactly | src/main.rs:1043-1049 | an attribute is looked up by its local name, the first one counts |
| ImageLinks.ConvertingIsIdempotent | src/main.rs:1034-1112 | a second pass changes nothing |

## Left out

- HTTP, TLS, WebFinger, signatures, the connection pool, cron wiring, logging and `pg_repack`: I/O. What performing a queued job does is an arbitrary success, error or timeout.
- Row locks below the level of a statement: each statement is one atomic step.
- The exponential of the database is a power of the constant 2.718281828459045 over the reals; rounding, overflow of intervals and of 16-bit and 32-bit columns are not modelled.
- Payloads are opaque text with the fields that statements look at. Which received activities are irrelevant, which actor ids look conventional and which date-times the date-time library parses are parameters.
- Lower-casing in the database is any function that is the usual one on ASCII; the Rust side lowers ASCII only.
- LikeCounter.CleanupLikesKeeps: does not model the order and limit of the statement; any set of old remote likes may go.
- LikeCounter.PurgeKeepsExactly: does not model the references that make the transaction fail as a whole, in which case nothing changes, nor how an id is recognised as one of this server.
- LikesPaging.AllPages: does not model likes without a creation time or outside the range of 64-bit nanoseconds, on which the program would stop.
- Markdown.LinkifyBareUrls: does not model the saturation of the link depth at the width of a machine word.
- JsonCompat.NormalizeInPlace: works on values; that the program overwrites the tree through references is not captured.
- ImageRewriter.ProcessChildren: does not model parent pointers, template contents or serialisation.
- FollowProtocol.ServersAgree: assumes fresh nonces, and that the two servers mean the same community and follower by their ids; Reject activities, follows of local communities and follow ids of other origins are not part of this model.
- FollowProtocol.Settles: deliveries never fail for good; lost activities are not part of this model.
- Percent-encoding when a URI is printed: every segment that is printed consists of unreserved characters, so it is never needed. Decoding when a path is routed is modelled.
- The janitor's queries that re-send pending follows and undos appear in the follow protocol as steps that may happen at any time, not in the batched repairs.
- Cleanup of notifications, communities and replies, ActivityPub object construction, HTML sanitising, the markdown parser and translations: easy field setting or other libraries.
- Enqueue.AtMostOneEach: producers of other recurring work inside queued jobs are not part of this model.
