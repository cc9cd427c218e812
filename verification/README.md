# SadarBencana: models and proofs

This project models the parts of SadarBencana (disaster alerting: a Python worker and a Go
API) that carry state over time, and proves what they keep in every state they can reach.

| files | what they model |
|---|---|
| `CapMessages`, `ReferenceGraph`, `CapLifecycle`, `CapInvariants`, `CapRuns`, `CapReplays` | Common Alerting Protocol messages (OASIS CAP 1.2, section 3.2.1): the reference graph, the canonical root, the two-phase renumbering of a lifecycle, and what committed upserts add up to in any order |
| `CapQueue`, `CapTransactions`, `CapStoreRuns`, `CapLateArrival` | the same upserts with the queue rows they stamp anew: exactly when the unique index of the queue rolls a message back, and what arrival order then matters for |
| `AlertRevisions` | revisions of alerts from all other sources |
| `DeliveryProtocol`, `DeliveryInvariants`, `DeliverySafety`, `DeliveryLocks`, `DeliveryTiming`, `DeliveryRequeue`, `DeliveryHarmless`, `DeliveryResending` | the delivery queue as a state machine of many workers with explicit locks: fencing, recording, freedom from deadlock, lease and retry times, and exactly when the manual requeue can make a message go out twice |
| `Recipients`, `RecipientRuns`, `PublicationRuns` | who is told about an alert and its follow-ups |
| `RayCasting`, `RingLaws`, `Triangles`, `Boundaries` | three ray casters, what they answer on every ring in terms of left and right turns, laws of the even-odd rule, and box indexes, over exact reals |
| `UsageLimits`, `UsageProtocol`, `MutationLimiter` | sliding-window limiters, in the database and in memory |
| `RecordFraming` | splitting a chunked byte stream into records |
| `Backfill` | the resumable, checkpointed backfill |
| `Topology` | stitching arcs into closed rings |
| `MergeLog` | event merges and their append-only log |
| `Optional` | optional values |

State that the source updates in place is a class whose methods are proved against functions
or relations on values; theorems about whole runs are lemmas about those. The delivery queue
and the admission of AI requests are state machines, because many transactions interleave there.

## Modelling decisions

- Instants are integers on one time line, texts are already trimmed, and times of the usage
  table are microseconds. Coordinates are reals.
- Results are stated on the fields of messages and rows, on sets of rows, and with the
  constants written out, besides the functions and relations that the methods are proved against.
- A hash is injective: a lifecycle key is the canonical identity itself, a checksum stands for
  one payload, and two messages with one identity have one content within a run.
- The id of a row is its position in its table. Reconciliation breaks ties by the id as text;
  identities of stored rows differ, so that part of the sort key is never reached.
- A CAP status that a message merely declares, such as cancelled on an alert, is overwritten by
  reconciliation, as in the code (`CapRuns.CancelledIffCancelMessage`).
- Every CAP payload carries its own identifier, as the CAP parser always stores one. A row
  without it would take its identity from the lifecycle key that reconciliation rewrites.
- CAP keys depend on reported sent times. A plain alert may reference another sender, and its
  reported time can then change the canonical identity of a lifecycle that it does not join and
  that the code does not reconcile. `CapRuns.NameOfRowSurvives` gives the exact condition, row by
  row, and `CapReplays.CrossSenderHintLeavesStaleName` an example; grouping, numbering, links and flags
  need no such condition.
- CAP queue rows are those about an alert row, with the columns of their unique index. Between
  upserts a row can be queued for the current alert row of a lifecycle unless its slot is taken
  (`CapStoreRuns.Event.Tell`), and be dropped with its subscriber (`Forget`). The lifecycle
  columns of the queue are present, and the re-stamp visits queue rows in table order; the
  outcome does not depend on that order (`CapQueue.StampedEffect`).
- `CapRuns` and `CapReplays` speak of the alert rows alone, over committed upserts;
  `CapStoreRuns` adds the queue rows and the upserts that are rolled back.
- Delivery: a transaction's writes appear when it commits, row locks are held until then, the
  claim skips locked rows and never waits. A persisting transaction may lock and change any
  alerts and queue rows of its own source, an expiring one those of all its sources.
- Delivery: the two callers that upsert alerts of other sources without the source lock
  (apps/worker/main.py:870 and apps/worker/connectors/bmkg_regional.py:244) are actors outside
  this model; so is anything else that writes to alerts without that lock.
- Delivery: the expiry statement (apps/worker/db/official_alerts.py:69-86) is assumed to lock all
  setting rows it reads before it locks any alert row.
- Delivery: an alert row that has been superseded is never current again. Only the insert and the
  CAP renumbering set that flag, and neither gives it back (`AlertRevisions.SupersededStays`,
  `CapRuns.SupersededStays`).
- Delivery: a settings change is one transaction that locks the setting row exclusively.
- Delivery: a requeue starts the attempts of its row afresh, so its earlier sends no longer count.
- Usage: a stamp is the start of its transaction; a day is a UTC day of 86,400 seconds; the
  limits of a feature do not change.
- Framing: white-space trimming, JSON parsing and the extraction of status, partial text and
  briefing from an event are unknown functions.
- Backfill: the records, the boundaries and the mapping are fixed; a refused record is one for
  which the database raises an error, after which the transaction cannot write the rejection
  either.

## Where code and documentation differ

- `upsert_official_alert` promises that an identical payload returns the reconciled current
  revision without writing. For CAP it rewrites the whole lifecycle, with the values it already
  has if and only if every row of the lifecycle carries its canonical key and the status of that
  clock reading (`CapReplays.ReplayChangesNothingIff`). For other sources it returns the matching row, current
  or not (`AlertRevisions.ReplayedRowIsCurrentIff`, `AlertRevisions.OldPayloadReturnsOldRow`).
- CAP messages are meant to be stored in any order of arrival. The re-stamp of queue rows
  (apps/worker/db/official_alerts.py:392-403) is checked row by row against the unique index
  (db/schema/025_ews_alert_lifecycle_delivery.sql:26-31), so a message that comes late, or that
  merges lifecycles, can be rolled back, on every retry too, and is then never stored. The exact
  condition can be read off the tables before the call (`CapTransactions.RefusedIff`, and for a
  late message `CapTransactions.LateArrivalIsRefusedIff`); `CapLateArrival` has four messages of
  which one is lost in one order and none in the other. Order is irrelevant otherwise
  (`CapStoreRuns.SameArrivalsSameStructure`).
- A manual requeue can let one attempt of its row be sent twice, and does so exactly when a worker
  still holds a claim of the row that is not blocked. Claims of official rows are blocked when the
  alert has been superseded, when the worker has found its source switched off or its alert
  superseded, or when it holds the setting of a source that is switched off
  (`DeliveryResending.RequeueDuplicatesIff`; a whole run for rows of either kind is
  `DeliveryResending.DuplicateSendIsReachable`).
- The count of processed records runs ahead of the checkpoint once a batch commits from a
  checkpoint that another call has passed (`Backfill.CountIsOffsetIff`, `Backfill.OverlapCountsTwice`).
- The backfill records invalid records as rejections and goes on, except those whose rejection
  the database refuses too: they stop the job for good (`Backfill.RefusedRecordBlocks`).
- A workflow that ends in a record without its separator is not taken as ended
  (`RecordFraming.LastSeparatorChangesOutcomeIff`, `RecordFraming.LastSeparatorDecides`).
- Of the three point-in-polygon readings only one looks at holes
  (`Boundaries.ReadingsDifferInHoles`, `Boundaries.HoleSeparatesReadings`).

## Model

| member | source | states |
|---|---|---|
| `CapMessages.ReferenceSentTimes` | apps/worker/db/official_alerts.py:204-232 | the dictionary holds for every identity exactly the earliest time that the payload reports for it, and no entry when it reports none |
| `CapMessages.HintedIsReferenced` | apps/worker/db/official_alerts.py:256-263 | a reported time always belongs to an identity that the same message references, so reading times inside the reference loop loses none |
| `CapMessages.ReferencesIff` | apps/worker/db/official_alerts.py:176-201 | the identities read from a message are exactly those that an entry of its reference list gives, with its own sender where the entry has none, or else those of its plain list of identifiers |
| `CapMessages.HintsIff` | apps/worker/db/official_alerts.py:204-232 | the times reported for an identity are exactly those of the references that give it |
| `CapMessages.ChronologicalListingIsUnique` | apps/worker/db/official_alerts.py:338-344 | the sort key (sent time, identity) leaves exactly one listing of a set of messages |
| `CapMessages.BeforeIsStrictOrder` | apps/worker/db/official_alerts.py:338-344 | the sort key is a strict order, total on different identities |
| `CapMessages.BeforeIffSentBefore` | apps/worker/db/official_alerts.py:339-345 | one message sorts before another exactly when it was sent earlier, or at the same time under a sender, or under the same sender an identifier, that comes first in the dictionary order of code points |
| `ReferenceGraph.Graph.AddMessage` | apps/worker/db/official_alerts.py:253-275 | after one more message the three dictionaries describe exactly the graph and the earliest sent times of one more message; references to other senders add a node and a time but no edge |
| `ReferenceGraph.Graph.Traverse` | apps/worker/db/official_alerts.py:291-298 | the worklist ends, in any neighbour order, with exactly the identities connected to the start; measure: unvisited identities, then pending length |
| `ReferenceGraph.Graph.Candidates` | apps/worker/db/official_alerts.py:300-305 | candidates are the members without a predecessor in the component, or the whole component when references form only cycles |
| `ReferenceGraph.CapComponent` | apps/worker/db/official_alerts.py:235-313 | from the stored messages in any order: exactly the connected component of the incoming message, and its canonical identity, a candidate of least (sent time or unknown, identity) |
| `ReferenceGraph.CanonicalIsUnique` | apps/worker/db/official_alerts.py:307-313 | every member of a component leads to the same canonical identity |
| `ReferenceGraph.ArrowIff` | apps/worker/db/official_alerts.py:264-275 | an edge is a reference of a message to an identity of its own sender, and nothing else is |
| `ReferenceGraph.TimeIff` | apps/worker/db/official_alerts.py:244-263 | an identity is dated by its own message and by the references that give it with a time |
| `ReferenceGraph.CanonicalComesFirst` | apps/worker/db/official_alerts.py:307-313 | the canonical identity is dated as early as any other candidate, undated candidates come last, and among equally early ones the smallest identity is taken |
| `Components.ConnectedIsEquivalence` | apps/worker/db/official_alerts.py:235-298 | connection by references is an equivalence, so components are well defined |
| `Components.UntouchedComponent` | apps/worker/db/official_alerts.py:235-298 | references of one message leave every component it does not join exactly as it was |
| `CapLifecycle.SortRowsSorts` | apps/worker/db/official_alerts.py:338-344 | sorting the rows of a component gives a strictly chronological order |
| `CapLifecycle.ParkingEffect` | apps/worker/db/official_alerts.py:346-356 | after n statements of the first loop exactly the first n rows carry their own placeholder key |
| `CapLifecycle.RenumberingEffect` | apps/worker/db/official_alerts.py:358-381 | after n statements of the second loop exactly the first n rows carry key, revision, previous link, current flag and status of their position |
| `CapLifecycle.UpsertEffect` | apps/worker/db/official_alerts.py:346-381 | both loops over alert rows together renumber the lifecycle of the message and keep every other row |
| `CapInvariants.SharedKeyIffConnected` | apps/worker/db/official_alerts.py:330-381 | in a reconciled table two rows share a lifecycle key exactly when references connect their messages |
| `CapInvariants.SharedLifecycle` | apps/worker/db/official_alerts.py:338-381 | rows that share a key stand in one chronological listing whose positions give revision 1..n, previous link, current flag, and active only when current |
| `CapInvariants.RevisionsFollowTimes` | apps/worker/db/official_alerts.py:339-381 | of two rows of one lifecycle the one with the smaller revision is the one sent first, ties by sender and identifier |
| `CapInvariants.LifecycleOfRow` | apps/worker/db/official_alerts.py:358-381 | revisions of a lifecycle start at 1 and leave none out, a row links to the row with the revision before its own, and is current exactly when no revision is higher |
| `CapInvariants.ReconciledMeetsConstraints` | apps/worker/db/official_alerts.py:358-381 | no two rows share key and revision, no two current rows share a key |
| `CapInvariants.UpsertKeepsReconciled` | apps/worker/db/official_alerts.py:330-381 | any committed upsert of any message keeps the table reconciled: one key per component, revisions 1..n in (sent time, identity) order, chained previous links, only the last current, only it active |
| `CapInvariants.NewKeyIsFree` | apps/worker/db/official_alerts.py:358-381 | no row outside the component carries the key that the renumbering hands out |
| `CapInvariants.EveryStatementMeetsConstraints` | apps/worker/db/official_alerts.py:346-381 | the unique constraints on revisions and on current rows hold after every single statement of an upsert, also when one message merges several lifecycles; so does the one on payloads (db/schema/019_official_alert_lifecycle.sql:25-26) when a checksum stands for one message |
| `CapRuns.SweepKeepsReconciled` | apps/worker/db/official_alerts.py:69-86 | an expiry sweep keeps the table reconciled and its messages |
| `CapRuns.ReachableIsReconciled` | apps/worker/db/official_alerts.py:330-381 | every table reachable by committed upserts, replays and sweeps is reconciled and holds exactly the messages of those upserts |
| `CapRuns.SameMessagesSameNumbering` | apps/worker/db/official_alerts.py:330-381 | two reconciled tables with the same messages agree on revisions, current flags and previous links read as messages |
| `CapRuns.SameMessagesSameGrouping` | apps/worker/db/official_alerts.py:330-381 | and on which messages share a lifecycle |
| `CapRuns.NameSurvives` | apps/worker/db/official_alerts.py:300-313 | a component that the new message does not join keeps its canonical identity if and only if no sent time it reports overtakes it |
| `CapRuns.RewrittenRowIsNamed` | apps/worker/db/official_alerts.py:358-381 | an upsert leaves every row of the lifecycle it rewrites with its canonical key, whatever the table held before |
| `CapRuns.NameOfRowSurvives` | apps/worker/db/official_alerts.py:330-381 | a row with a canonical key has one after the upsert if and only if the message does not, from outside the row's component, report a time that overtakes its root; nothing is asked of other rows |
| `CapRuns.NamingSurvivesUpsert` | apps/worker/db/official_alerts.py:330-381 | so a table with canonical keys keeps them all if and only if the message reports no overtaking time for a foreign lifecycle |
| `CapRuns.NameLastsUntilDisturbed` | apps/worker/db/official_alerts.py:330-381 | along a run a canonical key lasts until a committed message that does not join the component reports an overtaking time for it |
| `CapRuns.SameSenderNeverDisturbs` | apps/worker/connectors/bmkg_cap.py:265-271 | a message whose references stay with its own sender, as the parser demands of updates and cancellations, never does that |
| `CapRuns.ReachableNames` | apps/worker/db/official_alerts.py:330-381 | with same-sender references every reachable key is the canonical identity of its component |
| `CapRuns.ReachableStatuses` | apps/worker/db/official_alerts.py:316-327 | with one clock reading every reachable status is the reconciled one, sweeps included |
| `CapRuns.UpsertStatuses` | apps/worker/db/official_alerts.py:316-327 | an upsert makes every row of the lifecycle cancelled for a cancel message, otherwise expired when its expiry has come, otherwise active or updated by its current flag, and leaves every other row as it was |
| `CapRuns.SweepStatuses` | apps/worker/db/official_alerts.py:69-86 | a sweep expires exactly the current active rows whose expiry has come, and changes nothing else |
| `CapRuns.CancelledIffCancelMessage` | apps/worker/db/official_alerts.py:316-327 | in every reachable table, whatever the clocks, exactly the cancel messages are cancelled |
| `CapRuns.SameCommitsSameStructure` | apps/worker/db/official_alerts.py:235-381 | alert rows alone, without any assumption on senders or clocks: the same set of messages that commit, in any order and with any replays and sweeps, ends with the same lifecycles, revisions, previous links and current flags |
| `CapRuns.SameCommitsSameRows` | apps/worker/db/official_alerts.py:235-381 | the rest, for the messages that commit: same keys for same-sender references, same statuses for one clock reading |
| `CapRuns.CurrentOnlyMovesForward` | apps/worker/db/official_alerts.py:338-381 | between any two moments of a run the current message of a lifecycle stays or moves forward in (sent time, identity), also across merges |
| `CapRuns.SupersededStays` | apps/worker/db/official_alerts.py:346-381 | a row that has been superseded is never current again, whatever arrives, is replayed or swept |
| `CapReplays.ReplayChangesNothingIff` | apps/worker/db/official_alerts.py:407-467 | a replay leaves every row with the values it has if and only if each row of the lifecycle carries its canonical key and the status of that clock reading |
| `CapReplays.CrossSenderHintLeavesStaleName` | apps/worker/db/official_alerts.py:268-275 | a concrete pair of messages, the second a plain alert that references another sender, after which a stored key is no longer canonical |
| `CapReplays.CrossSenderRunExists` | apps/worker/db/official_alerts.py:407-467 | the run of these two messages exists |
| `CapQueue.StampedEffect` | apps/worker/db/official_alerts.py:392-403 | one UPDATE of the queue rows of an alert fails if and only if another alert's row with the same recipient and action has the slot; otherwise it stamps all of them, in whatever order it meets them |
| `CapQueue.RestampedEffect` | apps/worker/db/official_alerts.py:383-403 | the loop over the new order fails if and only if two queue rows clash at places k < j: same recipient and action, the later still stamped with the new key and revision k + 1; otherwise every row gets the stamp of its alert's place |
| `CapTransactions.RefusedIff` | apps/worker/db/official_alerts.py:330-403 | an upsert is rolled back exactly when that clash can be read off the tables before the call; order and root are determined by the tables |
| `CapTransactions.ArrivalCommitsIff` | apps/worker/db/official_alerts.py:407-467 | the whole transaction: refused and without effect, or committed with lifecycles numbered, queue rows stamped, slots unique and the message stored |
| `CapTransactions.LateArrivalIsRefusedIff` | apps/worker/db/official_alerts.py:383-403 | a new message that joins one lifecycle at some place is refused if and only if the lifecycle keeps its key and two neighbouring messages after that place were queued for one recipient under one action |
| `CapTransactions.LastComerIsNeverRefused` | apps/worker/db/official_alerts.py:383-403 | a new message that merges nothing and comes after all messages of its lifecycle is never refused |
| `CapTransactions.ReplayIsNeverRefused` | apps/worker/db/official_alerts.py:383-403 | nor is a replay |
| `CapTransactions.RetryIsRefusedToo` | apps/worker/db/official_alerts.py:383-403 | a refused message is refused at every clock reading, as long as the tables stay |
| `CapTransactions.ArrivalExists` | apps/worker/db/official_alerts.py:235-403 | every upsert has an outcome: component, order and root exist for every table and message |
| `CapTransactions.CapStore.Reconcile` | apps/worker/db/official_alerts.py:346-381 | the two loops over alert rows, statement by statement, compute the two specification functions |
| `CapTransactions.CapStore.Restamp` | apps/worker/db/official_alerts.py:392-403 | the third loop, row by row against the unique index, computes its specification function or reports the refusal |
| `CapTransactions.CapStore.Upsert` | apps/worker/db/official_alerts.py:407-467 | one transaction over alert and queue rows: it commits if and only if it is not refused, and otherwise leaves both tables as they were; committed, it returns the component's current row, which no row of the component was sent after and whose key they all carry, and `created` tells whether the identity was new |
| `CapStoreRuns.ReachableIsSound` | apps/worker/db/official_alerts.py:330-467 | in every reachable store lifecycles are numbered, every queue row carries the key and revision of its alert, and slots are unique |
| `CapStoreRuns.ReachableOrder` | apps/worker/db/official_alerts.py:339-381 | in every reachable store, of two rows of one lifecycle the one sent earlier, or at the same time under the smaller identity, has the smaller revision, and no row was sent after the current one |
| `CapStoreRuns.ArrivalIsStoredIff` | apps/worker/db/official_alerts.py:407-467 | in every run an arrival is stored if and only if it is not refused; a refused one changes nothing |
| `CapStoreRuns.AllAreStored` | apps/worker/db/official_alerts.py:407-467 | when no arrival of a run is refused, exactly the arrived messages are stored at its end |
| `CapStoreRuns.InOrderIsNeverRefused` | apps/worker/db/official_alerts.py:383-403 | in runs in which every message comes last in its lifecycle or is a replay no arrival is refused |
| `CapStoreRuns.SameStoredSameStructure` | apps/worker/db/official_alerts.py:235-467 | two runs that end with the same messages stored agree on lifecycles, revisions, previous links and current flags, whatever was refused, queued, dropped, swept or replayed |
| `CapStoreRuns.SameArrivalsSameStructure` | apps/worker/db/official_alerts.py:235-467 | confluence: runs of the same arrivals in any order, none of them refused, store them all and end with the same structure |
| `CapStoreRuns.SameStoredSameRows` | apps/worker/db/official_alerts.py:235-467 | and, with the same messages stored, the same keys for same-sender references and the same statuses for one clock reading |
| `CapStoreRuns.RunExists` | apps/worker/db/official_alerts.py:407-467 | every sequence of events has a run |
| `CapLateArrival.InOrderKeepsAll` | apps/worker/db/official_alerts.py:383-403 | an alert and three updates, each queued for one recipient before the next arrives: in the order of sending all four are stored |
| `CapLateArrival.LateUpdateIsLost` | apps/worker/db/official_alerts.py:383-403 | when the first update comes last instead, its transaction is rolled back, so is every retry, and it is not stored |
| `CapLateArrival.BothOrdersHaveRuns` | apps/worker/db/official_alerts.py:383-403 | both runs exist |
| `AlertRevisions.RevisionStore.Upsert` | apps/worker/db/official_alerts.py:487-560 | a known payload changes nothing and returns its row; a new one takes the next number, points at the newest earlier row, and becomes current exactly when strictly newer; the returned row is current exactly when it is the newest |
| `AlertRevisions.RevisionStore.Expire` | apps/worker/db/official_alerts.py:69-86 | exactly the current active rows of live and selected sources whose expiry has come become expired, every other row stays, every row changed is returned, and every row returned is one that this call changed |
| `AlertRevisions.MaxIsCount` | apps/worker/db/official_alerts.py:42-46 | the next number is the number of rows plus one, as numbers are dense |
| `AlertRevisions.CurrentIsNewest` | apps/worker/db/official_alerts.py:28-33 | the row marked current is the newest by sent time, first arrival winning ties |
| `AlertRevisions.AppendKeepsValid` | apps/worker/db/official_alerts.py:511-560 | a new revision keeps the invariant of numbers, links, current flags and active status |
| `AlertRevisions.ReachableIsValid` | apps/worker/db/official_alerts.py:487-560 | every table reachable by upserts, replays and sweeps satisfies it |
| `AlertRevisions.RevisionsAreDense` | apps/worker/db/official_alerts.py:42-46 | the revisions of each alert are exactly 1..n, in arrival order |
| `AlertRevisions.ExactlyOneCurrent` | apps/worker/db/official_alerts.py:523-533 | each alert has exactly one current row, with the greatest sent time and the first arrival winning ties; no other row is active |
| `AlertRevisions.PreviousPointsBack` | apps/worker/db/official_alerts.py:525-529 | a previous link points to the newest row that arrived earlier; only revision 1 has none |
| `AlertRevisions.CurrentIndependentOfOrder` | apps/worker/db/official_alerts.py:523-529 | a notice strictly newer than the other arrived ones of its alert is the current one, whatever the arrival order and the replays |
| `AlertRevisions.CurrentNeverFalls` | apps/worker/db/official_alerts.py:523-533 | between any two moments of a run the current revision of an alert stays or grows |
| `AlertRevisions.SupersededStays` | apps/worker/db/official_alerts.py:34-40 | a row that has been superseded is never current again |
| `AlertRevisions.StatusesAreHonest` | apps/worker/db/official_alerts.py:126-133 | in every reachable state exactly the cancelled notices are cancelled, only notices declared expired or past their expiry are expired, and only rows that are not current are updated |
| `AlertRevisions.StatusIff` | apps/worker/db/official_alerts.py:116-133 | at every moment after its arrival a row is cancelled when its notice is; otherwise expired exactly when it was declared so, had expired at the clock of its arrival, or a sweep has met it while current and due; otherwise active or updated, by its current flag |
| `AlertRevisions.ReplayedRowIsCurrentIff` | apps/worker/db/official_alerts.py:502-509 | the row a replay returns is current if and only if it outranks all others of its alert |
| `AlertRevisions.OldPayloadReturnsOldRow` | apps/worker/db/official_alerts.py:477-484 | a concrete replay that returns a row which is not current, against the wording of the docstring |
| `DeliveryInvariants.NextKeepsInv` | apps/worker/alerts/lifecycle_delivery.py:114-229 | every action of claiming, locking, checking, sending, recording, skipping, persisting, expiring, switching a source, acknowledging or crashing keeps the protocol invariant |
| `DeliveryInvariants.CommitWritingKeepsInv` | apps/worker/alerts/lifecycle_delivery.py:322-389 | a persisting or expiring transaction never touches what a delivering worker has locked |
| `DeliveryInvariants.CommitAdminKeepsInv` | apps/api/internal/http/official_source_settings.go:205-300 | nor does a change of source settings |
| `DeliverySafety.DeliverableAroundSend` | apps/worker/alerts/lifecycle_delivery.py:401-445 | in every reachable state, from just before a send until its outcome is written, the row is still the claim's, the alert current, its source enabled and active |
| `DeliverySafety.OutcomeIsRecorded` | apps/worker/alerts/lifecycle_delivery.py:180-229 | the guards of the outcome statements never fail there: success becomes a sent row, failure the failed or dead-letter row that attempts and retry delay prescribe |
| `DeliverySafety.SkippedWasUndeliverable` | apps/worker/alerts/lifecycle_delivery.py:412-439 | whenever a delivering worker gives up a row, at that moment its alert is superseded or its source missing, disabled or not active: nothing that could be sent is skipped |
| `DeliveryTiming.OutcomeOfRow` | apps/worker/alerts/lifecycle_delivery.py:552-585 | what every delivery writes: sent; dead letter after a failure that is not to be retried or after the fifth attempt; otherwise failed with the next attempt 30, 60, 120 or 240 seconds later; and no other row changes |
| `DeliveryTiming.NoRetryAfterFinalFailure` | apps/worker/alerts/lifecycle_delivery.py:565-585 | in every run, after a failure that is not to be retried the row stays dead, and is neither claimed nor sent again |
| `DeliverySafety.NextKeepsRow` | apps/worker/alerts/lifecycle_delivery.py:114-229 | no action removes a row, changes what it is about, or takes back an attempt |
| `DeliverySafety.AttemptsAreNeverReused` | apps/worker/alerts/lifecycle_delivery.py:114-145 | two claims of one row never carry the same attempt number |
| `DeliverySafety.OneSendPerAttempt` | apps/worker/alerts/lifecycle_delivery.py:170-178 | each (row, attempt) is sent at most once and no row has more than five attempts |
| `DeliverySafety.OvertakenWorkerIsHarmless` | apps/worker/alerts/lifecycle_delivery.py:161-229 | a worker whose row was claimed again can neither send nor change any row |
| `DeliverySafety.DecidedRowStaysDecided` | apps/worker/alerts/lifecycle_delivery.py:161-229 | between any two moments a skipped or dead-letter row keeps its status, attempts, times, alert and channel, and a sent row does or is acknowledged |
| `DeliverySafety.RowsStartPending` | apps/worker/alerts/lifecycle_delivery.py:30-100 | a row enters the queue pending with no attempt used up; an official one is due at once and about an alert of its source |
| `DeliveryLocks.WaitingClimbs` | apps/worker/alerts/lifecycle_delivery.py:406-411 | whoever waits for a waiting worker wants a strictly lower lock: source names in order, then setting, alert, queue row |
| `DeliveryLocks.QueueRowsNeverClash` | apps/worker/alerts/lifecycle_delivery.py:437-445 | waiting transactions never clash on a queue row, because the exclusive source lock comes first |
| `DeliveryLocks.AlertLocksNeverClash` | apps/worker/alerts/lifecycle_delivery.py:426-436 | nor on an alert revision |
| `DeliveryLocks.NoDeadlock` | apps/worker/alerts/lifecycle_delivery.py:279-299 | in no reachable state does any group of workers wait only for its own members |
| `DeliveryLocks.SomeRequestIsGranted` | apps/worker/alerts/lifecycle_delivery.py:322-389 | when all open transactions wait, one request can be granted |
| `DeliveryTiming.LeaseIsRespected` | apps/worker/alerts/lifecycle_delivery.py:114-135 | between two claims of a row at least the lease of 60 seconds passes, unless a delivery of it wrote its outcome in between, whatever other workers, writers and crashes do |
| `DeliveryTiming.RetryWaits` | apps/worker/alerts/lifecycle_delivery.py:232-234 | after a retryable failure of attempt 1, 2, 3 or 4 the row is not claimed before 30, 60, 120 or 240 seconds have passed, and there is no sixth attempt |
| `DeliveryTiming.DueRowCanBeClaimed` | apps/worker/alerts/lifecycle_delivery.py:114-145 | a free open row that is due and below its fifth attempt can be claimed by a worker at rest, with the next number and a lease of a minute |
| `DeliveryTiming.TakenOverKeepsLease` | apps/worker/alerts/lifecycle_delivery.py:161-178 | a delivery whose row has been taken over still commits the lease it took, of 45 seconds for chat and 60 for the others |
| `DeliveryRequeue.RequeueIsSafeIff` | apps/worker/main.py:2033-2042 | the manual requeue keeps the protocol invariant if and only if no worker still holds a claim of the row |
| `DeliveryRequeue.RequeueRevivesClaim` | apps/worker/main.py:2033-2042 | when one does, and it is the first claim, the next claim carries the same attempt number and both workers pass the fence |
| `DeliveryResending.RequeueDuplicatesIff` | apps/worker/main.py:2033-2042 | for rows of every kind and with two workers or more, the requeue can lead to one attempt being sent twice if and only if some worker holds a claim of the row that is not blocked |
| `DeliveryResending.LiveRequeueDuplicatesIff` | apps/worker/main.py:2033-2042 | so, while an official alert is current and its source live, if and only if some worker that has not found the delivery blocked holds a claim |
| `DeliveryHarmless.BlockedClaimsAreHarmless` | apps/worker/main.py:2033-2042 | when every outstanding claim is blocked no run from the requeue sends anything twice: to the others a worker with such a claim behaves like a transaction that persists alerts of its source, for which the invariant holds |
| `DeliveryResending.UnblockedIsSentTwice` | apps/worker/main.py:2033-2042 | the path that sends twice, from every stage a claim can be in and for every attempt number: the others crash, the source is switched on if need be, another worker claims the row up to the same number, the first sends and records a failure, the other sends the same attempt again |
| `DeliveryResending.StaleClaimIsReachable` | apps/worker/alerts/lifecycle_delivery.py:114-145 | for either kind of row, a whole run from the initial state into that situation: one worker stalls, another takes over, passes every check and gives up |
| `DeliveryResending.DuplicateSendIsReachable` | apps/worker/main.py:2033-2042 | for either kind of row, that run, the requeue, and the run from there on which ends with a duplicate send |
| `DeliveryRequeue.GuardedRunIsSafe` | apps/worker/main.py:2033-2042 | with requeues of unclaimed rows only, every reachable state keeps the invariant and deliverability around every send |
| `DeliveryRequeue.SettledRowStaysSettled` | apps/worker/main.py:2033-2042 | in such a run no requeue brings back a message that went out or was skipped: the row stays as it is, a sent one is at most acknowledged |
| `Recipients.DeliveryQueue.Enqueue` | apps/worker/alerts/lifecycle_delivery.py:261-305 | a current revision inserts its candidates and then supersedes; a revision that is not current adds nothing |
| `RecipientRuns.FollowUpsReachThoseTold` | apps/worker/alerts/lifecycle_delivery.py:237-305 | a current expiry leaves a row with its action for everybody who was told before and whose channel is on; so does a cancellation that has not expired, and an update that is neither |
| `RecipientRuns.WarningsReachMatched` | apps/worker/alerts/lifecycle_delivery.py:237-305 | any other current revision leaves a warning for every matched pair whose channel is on |
| `RecipientRuns.AddedRow` | apps/worker/alerts/lifecycle_delivery.py:84-101 | a row that an enqueue adds is pending, in a slot nobody had, on a channel that is on: a warning for a matched pair and its zone, anything else for somebody told before, with the zone of the latest row |
| `RecipientRuns.OldRows` | apps/worker/alerts/lifecycle_delivery.py:103-112 | an enqueue skips the pending and failed rows of older revisions of its alert and leaves every other row; a revision that is not current changes nothing |
| `Recipients.RecipientHasLatest` | apps/worker/alerts/lifecycle_delivery.py:84-101 | every recipient has one row that the distinct selection keeps, of the highest revision and the last created |
| `RecipientRuns.SlotsStayUnique` | apps/worker/alerts/lifecycle_delivery.py:84-101 | no run creates two rows with one subscriber, channel, alert, revision and action |
| `RecipientRuns.FollowUpReaches` | apps/worker/alerts/lifecycle_delivery.py:84-112 | a follow-up reaches every recipient whose channel is on, and a row it creates is pending and names the watch zone of the recipient's latest row |
| `RecipientRuns.NobodyElseIsTold` | apps/worker/alerts/lifecycle_delivery.py:266-305 | every row a publication adds is pending, of its revision and action, on a channel that is on, for a matched pair of a first alert or a prior recipient of a follow-up, and takes a free slot |
| `RecipientRuns.OpenStaysNewest` | apps/worker/alerts/lifecycle_delivery.py:103-112 | along publications in order all open rows of an alert are of its newest queued revision |
| `RecipientRuns.NoStaleRowSurvives` | apps/worker/alerts/lifecycle_delivery.py:103-112 | after a publication no pending or failed row of an older revision exists, then or ever after |
| `RecipientRuns.StepKeepsRecipientIff` | apps/worker/alerts/lifecycle_delivery.py:84-112 | an event keeps a recipient if and only if it does not supersede the recipient's last open or sent row without telling the recipient again, and does not decide the last one against it; a first alert published again supersedes nothing |
| `RecipientRuns.NoRecipientIsLost` | apps/worker/alerts/lifecycle_delivery.py:84-112 | whoever holds a pending, failed, sent or acknowledged row has exactly one row for every later follow-up on a channel that is on, across any events that keep the recipient in that sense, republished first alerts included |
| `PublicationRuns.PublicationsAreInOrder` | apps/worker/alerts/lifecycle_delivery.py:322-389 | alert rows and queue rows together, for sources other than CAP: publications of an alert come in the order of its revisions |
| `PublicationRuns.NoRecipientIsLost` | apps/worker/alerts/lifecycle_delivery.py:84-112 | so whoever was told has exactly one row for every later follow-up, with no premise on the order of publications |
| `PublicationRuns.NoStaleRowSurvives` | apps/worker/alerts/lifecycle_delivery.py:103-112 | and once an alert has been published no open row of an older revision is left, then or ever after |
| `RayCasting.InsideRing` | apps/worker/geo/administrative_boundaries.py:38-48 | the first loop computes the parity of crossings over the closed ring |
| `RayCasting.RingContains` | apps/worker/historical_backfill_runner.py:47-57 | the second loop, with swapped edge ends, computes the same parity |
| `RayCasting.RingInGeoJson` | apps/worker/db/scoring_context.py:28-37 | the third loop, with its guarded division, computes the same parity |
| `Triangles.CrossesIffTurn` | apps/worker/geo/administrative_boundaries.py:42-46 | the ray crosses an edge that changes sides of its level exactly when the point lies left of the edge on its way up |
| `Triangles.InsideTriangleIff` | apps/worker/geo/administrative_boundaries.py:38-48 | on a triangle, in either direction, a point on none of the three lines is inside exactly when it lies on the same hand of all three sides |
| `Triangles.InsideIsFan` | apps/worker/geo/administrative_boundaries.py:38-48 | on any ring, a point on none of the lines is inside exactly when an odd number of the triangles from the first vertex hold it |
| `RingLaws.RotationKeepsInside` | apps/worker/geo/administrative_boundaries.py:38-48 | the answer does not depend on the first vertex |
| `RingLaws.ReversalKeepsInside` | apps/worker/geo/administrative_boundaries.py:38-48 | nor on the direction |
| `RingLaws.ClosingVertexKeepsInside` | apps/worker/geo/administrative_boundaries.py:38-48 | nor on repeating the closing vertex (RFC 7946 section 3.1.6) |
| `RingLaws.SharedBorderIsTiled` | apps/worker/geo/administrative_boundaries.py:38-48 | two rings along a common border, walked in opposite directions: a point is inside the ring around both exactly when it is inside one of them and not the other |
| `RingLaws.OutsideBoxIsOutsideRing` | apps/worker/geo/administrative_boundaries.py:23-48 | a point outside a box around the ring has even parity: right of it nothing is crossed, left of it all straddling edges of a cycle |
| `Boundaries.Hull` | apps/worker/geo/administrative_boundaries.py:23-35 | the box bounds every point and is the smallest that does |
| `Boundaries.BoxIsLossless` | apps/worker/geo/administrative_boundaries.py:51-57 | a point in the geometry, with or without holes, lies in the geometry box |
| `Boundaries.HoldsPoint` | apps/worker/geo/administrative_boundaries.py:51-57 | the loop over polygons and holes: some outer ring holds the point and no hole of that polygon does |
| `Boundaries.ResolveBoundaryIsExact` | apps/worker/geo/administrative_boundaries.py:110-124 | the lookup with boxes gives the first containing boundary of the finest level, as the search without boxes would, or nothing when none contains the point |
| `Boundaries.FinestLevelWins` | apps/worker/geo/administrative_boundaries.py:122-124 | no boundary that holds the point is of a finer level than the answer, where villages are finer than districts, districts than regencies, and regencies than provinces |
| `Boundaries.ProvinceIndex.PolygonContains` | apps/worker/historical_backfill_runner.py:60-62 | some outer ring holds the point |
| `Boundaries.ProvinceIndex.Lookup` | apps/worker/historical_backfill_runner.py:76-82 | the first entry whose outer rings hold the point, as without boxes |
| `Boundaries.PointInGeoJson` | apps/worker/db/scoring_context.py:14-40 | some outer ring holds the point; missing geometries and other kinds hold none |
| `Boundaries.ReadingsDifferInHoles` | apps/worker/geo/administrative_boundaries.py:51-57 | the reading with holes and the two without differ exactly on points that a hole cuts out of every polygon around them |
| `Boundaries.HoleSeparatesReadings` | apps/worker/geo/administrative_boundaries.py:51-57 | and they do differ: on the middle of a square with a square hole |
| `UsageLimits.UsageTable.BeginUsage` | apps/api/internal/http/ai_access.go:49-127 | one admission: granted if and only if every limit that is on exceeds the number of rows it counts, refused for the first one in the order of the source that does not; a grant appends a started row, and the table stays within its limits |
| `UsageLimits.GrantedIff` | apps/api/internal/http/ai_access.go:71-113 | the same for the counts of a transaction, as sizes of sets of rows of the last minute, the present day, and the last five minutes if still started |
| `UsageLimits.UsageTable.Finish` | apps/api/internal/http/ai_access.go:28-38 | finishing changes one status and keeps the table within its limits |
| `UsageLimits.LastOneCountsTheOthers` | apps/api/internal/http/ai_access.go:71-93 | the last row of a window to commit has counted the others, although stamps need not be in commit order |
| `UsageLimits.MinuteBound` | apps/api/internal/http/ai_access.go:71-93 | no closed 60-second window holds more grants than the limit |
| `UsageLimits.DayBound` | apps/api/internal/http/ai_access.go:71-93 | no day holds more grants than the limit |
| `UsageLimits.ConcurrentBound` | apps/api/internal/http/ai_access.go:71-93 | started rows with stamps within five minutes of each other never exceed the concurrent limit |
| `UsageProtocol.NextKeepsInv` | apps/api/internal/http/ai_access.go:54-127 | with the advisory locks explicit, what a transaction has counted stays an upper bound until it commits |
| `UsageProtocol.EveryWindowIsBounded` | apps/api/internal/http/ai_access.go:49-127 | in every reachable state of interleaved transactions, per user and globally, every window and every day is within its limit |
| `UsageProtocol.RunningIsBounded` | apps/api/internal/http/ai_access.go:49-127 | at every moment the started leases that are not stale are within the concurrent limit |
| `UsageProtocol.NoLimitIsExceeded` | apps/api/internal/http/ai_access.go:49-127 | in every reachable state no closed minute, no day and no five minutes of started requests hold more rows than their limit, for one user or for everybody |
| `UsageProtocol.UndisturbedIsGrantedIff` | apps/api/internal/http/ai_access.go:100-124 | a transaction that nobody overtakes after its count is granted if and only if every limit that is on has room |
| `UsageProtocol.GlobalLockIff` | apps/api/internal/http/ai_access.go:60-69 | a transaction asks for the global lock only when some global limit is on, and counts without it exactly when none is |
| `MutationLimiter.Limiter.Dispatch` | apps/worker/main.py:233-256 | a POST, PUT, DELETE or PATCH below /api/v1/ is refused exactly when the full history of its address holds thirty grants less than sixty seconds old; everything else passes |
| `MutationLimiter.NoMinuteExceeds` | apps/worker/main.py:225-226 | no sixty seconds, open at their end, hold more than thirty grants of one address |
| `MutationLimiter.RecentOfRecent` | apps/worker/main.py:246-247 | pruning early loses nothing that a later count would see |
| `RecordFraming.StreamBriefing` | apps/api/internal/http/ai_briefings.go:376-465 | the chunk loop's outcome (text, failure, callbacks) is a function of the concatenated bytes and of how the stream ended |
| `RecordFraming.DrainEarly` | apps/api/internal/http/ai_briefings.go:384-423 | taking records before more bytes arrive equals taking them afterwards |
| `RecordFraming.SplitIsPlain` | apps/api/internal/http/ai_briefings.go:387-396 | splitting loses no byte and leaves no separator in a record |
| `RecordFraming.SplitUndoesJoin` | apps/api/internal/http/ai_briefings.go:387-396 | and it is the only such cut |
| `RecordFraming.OutcomeOfRecords` | apps/api/internal/http/ai_briefings.go:376-465 | for records joined by separators and cut into chunks anywhere, the outcome is that of the nonempty trimmed records in order and then of the rest |
| `RecordFraming.PartialsNeverRepeat` | apps/api/internal/http/ai_briefings.go:410-413 | no partial text is reported twice in a row, the rest of the stream included |
| `RecordFraming.FinalIsLastBriefing` | apps/api/internal/http/ai_briefings.go:415-417 | the final text is that of the last record that has a briefing |
| `RecordFraming.StatusesInOrder` | apps/api/internal/http/ai_briefings.go:399-421 | the status callbacks are those of the complete records, in order and no others; the flags say whether there was a record and whether one ended the workflow |
| `RecordFraming.CallbacksInOrder` | apps/api/internal/http/ai_briefings.go:404-413 | all callbacks in order: per record its status when it has both parts, then its partial text unless empty or the last one again |
| `RecordFraming.OutcomeAmounts` | apps/api/internal/http/ai_briefings.go:425-465 | text, failure and callbacks of every stream in terms of its records and its rest: cancelled, no events, no briefing, or the trimmed last briefing, and for a broken stream the text so far |
| `RecordFraming.LastSeparatorChangesOutcomeIff` | apps/api/internal/http/ai_briefings.go:439-465 | a missing last separator leaves text, failure and callbacks as they are if and only if the call was cancelled, there is no last record, it does not parse and is not the only one, or it parses and a text or an earlier record makes up for its mark of the workflow's end |
| `RecordFraming.LastSeparatorDecides` | apps/api/internal/http/ai_briefings.go:439-465 | a concrete record with which the call succeeds when it is ended by a separator, and has no briefing otherwise |
| `RecordFraming.LastSeparatorChangesError` | apps/api/internal/http/ai_briefings.go:439-465 | and one with which the error differs |
| `Backfill.Batch` | apps/worker/historical_backfill.py:98-99 | the next records after the checkpoint, as many as the clamped size allows, and at least one while any remain |
| `Backfill.BackfillJob.RunBatch` | apps/worker/historical_backfill.py:100-152 | all or nothing: the tables of the batch, offset and count moved by its length, finished exactly when no record is left, and a report of them, or no change on a crash or a refused record |
| `Backfill.BackfillJob.RunJob` | apps/worker/historical_backfill.py:83-152 | tables equal one pass over the consumed prefix before and after, and the checkpoint advances when the call commits and records remain |
| `Backfill.TablesAreOnePass` | apps/worker/historical_backfill.py:83-152 | whatever the batch sizes and crashes, tables and count are those of one pass up to the checkpoint |
| `Backfill.FinishedIsOnePass` | apps/worker/historical_backfill.py:139-151 | a finished job has consumed every record exactly once |
| `Backfill.FinishedIff` | apps/worker/historical_backfill.py:98-151 | the checkpoint is the sum of the batch sizes of the attempts that went through, capped at the number of records, and the job is finished if and only if one attempt did and the sum reaches that number |
| `Backfill.EventsAreFirstAccepted` | apps/worker/historical_backfill.py:109-129 | an event is stored exactly when a consumed record maps to it within a known boundary, with the payload of the first such record |
| `Backfill.RejectionsAreFirstRejected` | apps/worker/historical_backfill.py:130-139 | a rejection is stored exactly when a consumed record is no event for that reason (64 characters of it), under its source id if it has one, with the payload of the first such record |
| `Backfill.EveryRecordIsAccountedFor` | apps/worker/historical_backfill.py:108-139 | every consumed record is stored as an event or reported as a rejection |
| `Backfill.RefusedRecordBlocks` | apps/worker/historical_backfill.py:117-139 | a record that the database refuses is never passed, so its job never finishes |
| `Backfill.OverlapKeepsTables` | apps/worker/historical_backfill.py:84-99 | overlapping calls with stale checkpoints still leave the tables of one pass over a prefix |
| `Backfill.CountIsOffsetIff` | apps/worker/historical_backfill.py:141-151 | in every run of overlapping calls the processed count equals the offset if and only if every nonempty batch committed so far had started from the checkpoint then stored; otherwise it is ahead of all checkpoints, for good |
| `Backfill.LeadGrowsIff` | apps/worker/historical_backfill.py:141-151 | the count's lead over the highest checkpoint never falls back, and grows if and only if a nonempty batch commits from a checkpoint that has been passed |
| `Backfill.OverlapCountsTwice` | apps/worker/historical_backfill.py:84-99 | two calls that read the same checkpoint count a single record twice |
| `Topology.DecodeRing` | apps/worker/connectors/petabencana_flood_areas.py:43-49 | stitching, closing, and failing as a whole on an index beyond the arcs |
| `Topology.DecodeShape` | apps/worker/connectors/petabencana_flood_areas.py:54-66 | the rings of all groups in order, or a failure as a whole |
| `Topology.ShapeDecodes` | apps/worker/connectors/petabencana_flood_areas.py:54-66 | a shape whose groups name the pieces of cut rings decodes to all these rings, group by group and in order |
| `Topology.DecodeCutShape` | apps/worker/connectors/petabencana_flood_areas.py:54-66 | and never fails |
| `Topology.DecodingUndoesCutting` | apps/worker/connectors/petabencana_flood_areas.py:38-49 | a ring cut into arcs anywhere, any of them stored reversed and named by `~i`, decodes to itself (section 2.1.4 of the TopoJSON Format Specification) |
| `Topology.DecodedRingEnclosesTheSame` | apps/worker/connectors/petabencana_flood_areas.py:38-49 | and encloses the same points |
| `Topology.DecodedRingIsClosed` | apps/worker/connectors/petabencana_flood_areas.py:43-49 | every nonempty decoded ring is closed and made of points of the arcs |
| `Topology.RingsAreBounded` | apps/worker/connectors/petabencana_flood_areas.py:75-79 | every nonempty ring lies within the area bounds, and no smaller box would do |
| `MergeLog.MergeStore.MergeEvents` | apps/worker/db/correlation.py:121-165 | the checks in order, then one merge operation; refused exactly when the last logged operation on the member is a merge |
| `MergeLog.MergeStore.SplitEventMerge` | apps/worker/db/correlation.py:168-202 | a split names the merge in force, found from the log alone; refused exactly when there is none |
| `MergeLog.StripKeepsMiddle` | apps/worker/db/correlation.py:121-202 | a stripped text is the text less the white space at both ends, and less nothing else |
| `MergeLog.TableShowsLatest` | apps/worker/db/correlation.py:59-77 | the membership table shows for every event what the last logged operation on it says |
| `MergeLog.OperationsAlternate` | apps/worker/db/correlation.py:36-77 | the first operation on an event is a merge, from then on merges and splits alternate, and a split reverses the merge just before it |
| `MergeLog.NoDoubleReversal` | apps/worker/db/correlation.py:168-202 | no merge is reversed twice |
| `MergeLog.SplitRestores` | apps/worker/db/correlation.py:121-202 | a merge followed by its split restores the active merges of the member and of every event not concerned in between |

## Left out

- DeliverySafety.AttemptsAreNeverReused: speaks of runs without the manual requeue, which sets the attempt number back; DeliveryRequeue, DeliveryHarmless and DeliveryResending treat it apart.
- DeliverySafety.DecidedRowStaysDecided: likewise, as a requeue reopens a dead-letter row; the row of this model has no key and revision columns, which a CAP reconciliation rewrites on decided rows too (CapQueue models that).
- DeliveryLocks.NoDeadlock: waiting is for locks that others hold; the order in which the database serves waiting requests, and locks on tables other than source, setting, alert and queue row, are not modelled.
- RecipientRuns.NoRecipientIsLost: a recipient whose delivery was given up on (dead letter or skipped) may drop out of later follow-ups, as in the code, unless another row still counts; the watch-zone query is a given list of pairs; keys and revisions of queue rows stay as they were queued, so the re-stamp of CAP rows is not part of these runs; the order of publications is a premise here, and proved for the other sources in PublicationRuns.
- UsageLimits.DayBound: the day boundary of a database time zone with daylight saving is not modelled.
- RayCasting.InsideRing: needs a nonempty ring, where the source raises on an empty one.
- Boundaries.ProvinceIndex.PolygonContains: needs an outer ring in every polygon, where the source raises.
- MergeLog.Strip: knows the ASCII white space only.
- Databases without the lifecycle columns of the queue.
- Eventual delivery: a worker that stops after its fifth claim leaves its row pending, as in the code.
- Channel switches and the order of claims in the claim statement; mail and chat adapters; observations and metrics.
- The configuration version that a persisting transaction compares, and the evidence record it writes.
- Time limits of streams and the different kinds of read errors, which all return the text so far with an error.
- `lookup_nearest`, the validation of boundary files, malformed points, rounding of floating-point numbers.
- Features and their properties around decoded rings, and the synchronisation of flood areas.
- Correlation decisions and reviews, foreign keys and missing events in merges.
- Parsing of XML, JSON and dates, HTTP, the web interface, risk scoring.
