# Pulchritudinous Queue engine, modelled in Dafny

This project models the queue engine of the Pulchritudinous job queue for
Magento (`Pulchritudinous_Queue_Model_Queue`). It is a database-backed queue.
Producers add *labours* (jobs) for named *workers*, with a payload, an
*identity* and an optional delay. Worker processes reserve labours, run them,
and then finish or reschedule them. The model covers:

- **admission** (`add`): the unknown-worker and non-string-identity errors,
  the per-worker rules `ignore` and `replace` (`wait` and any other rule admit
  without side effects), the sanitised payload, and the inserted `pending` row;
- **due-time resolution** (`_getWhen`): the configured delay, a numeric
  override, an absolute date, and an unusable override;
- **payload sanitising** (`_validateArrayData`): object values are dropped at
  every depth of a nested PHP array;
- **reconciliation** (`getRunning`): running labours whose process is dead are
  closed as `unknown` and left out of the running collection;
- **reservation** (`reserve`): the first due pending labour in
  (priority, created_at) order that the `wait` rule does not hold back;
- **finish / reschedule**: the two status transitions a worker runner applies.

The labour table is a sequence of immutable `Labour` records plus the next
auto-increment id (`Jobs.Store`). Every operation is a pure function from the
table to the new table. The worker registry (`Jobs.Registry`), the clock
(`now`, integer seconds) and the process-liveness probe (`isAlive`, in place of
`posix_kill($pid, 0)`) are parameters. Only `getRunning` writes during
`reserve`. Its batch of `unknown` rows is one atomic step.

Modules: `Wrappers` (Option/Result), `Payload` (PHP values and the sanitiser),
`Jobs` (records, registry, store invariant, running key), `Schedule`
(`_getWhen`), `Admission` (`add`), `Reconcile` (`getRunning`), `Reservation`
(`reserve`), `Transitions` (`finish`, `reschedule`), and `Scenarios` (worked
cases on concrete tables).

Notes on how the model reads the code:

- `reschedule` resolves the new due time from the worker's `delay` setting.
  It does not use the `reschedule` setting.
- `reschedule` does not check that the worker exists. The code would call a
  method on a missing configuration, so the model requires the worker to be
  registered. It does not invent an error.
- `reserve` only *selects* a labour. It does not mark it running and does no
  compare-and-swap. Marking a labour running happens outside this class.
- The running set is keyed by the string `worker + "-" + identity`, as the
  code does. Distinct pairs can share a key (`Jobs.RunningKeyCollision`,
  `Scenarios.CollidingKeyHoldsBack`), so the `wait` gate can hold a labour
  back although no labour of its own pair runs.
- The SQL query orders only by priority and created_at. Rows that tie on both
  are left in table (insertion) order by the model's stable sort.
- The resource methods `hasUnprocessedWorkerIdentity` and
  `setStatusOnUnprocessedByWorkerIdentity` are defined in the labour resource
  class, which this model does not cover. They are modelled from their names
  and their use in `add`, where "unprocessed" means `pending` or `running`.
  The model takes `created_at` to be the insertion time, and `save` of a
  loaded labour to rewrite the row with its id.
- Assumption: `replace` marks every unprocessed labour of the pair
  `replaced`, running labours included. This follows from reading
  "unprocessed" as `pending` or `running`; the resource class that decides it
  is not covered.

## Model

| member | source | states |
|---|---|---|
| Payload.ValidateArrayData | app/code/community/Pulchritudinous/Queue/Model/Queue.php:121-140 | The sanitised array contains no object at any depth. It is never longer than the input, and sanitising is total (it never fails). |
| Payload.SanitizeValue | app/code/community/Pulchritudinous/Queue/Model/Queue.php:126-136 | A kept value is object-free. A scalar (null, bool, int, string) comes back unchanged. An array stays an array whose entries are exactly the sanitised entries of the original array, so objects nested at any depth are dropped by the same walk. |
| Payload.SanitizeEntry | app/code/community/Pulchritudinous/Queue/Model/Queue.php:125-137 | A kept entry keeps its key and its value becomes object-free. A scalar entry comes back unchanged. An array entry becomes the sanitiser's own result on that array, so its non-object entries survive at every depth. |
| Payload.DropObjects | app/code/community/Pulchritudinous/Queue/Model/Queue.php:132-134 | The reference filter: an entry is in the result if and only if it is in the input and its value is not an object. |
| Payload.ValidateArrayDataShape | app/code/community/Pulchritudinous/Queue/Model/Queue.php:121-140 | The sanitiser keeps exactly the non-object entries, in their original order. Each kept entry keeps its key, and its value is the sanitised value: scalars unchanged, and a nested array replaced by the sanitiser's own result on it, at every depth. |
| Payload.ValidateArrayDataFixpoint | app/code/community/Pulchritudinous/Queue/Model/Queue.php:121-140 | An array with no objects at any depth is returned exactly as it was. |
| Payload.ValidateArrayDataIdempotent | app/code/community/Pulchritudinous/Queue/Model/Queue.php:121-140 | Sanitising twice equals sanitising once. |
| Payload.ValidateArrayDataUniqueKeys | app/code/community/Pulchritudinous/Queue/Model/Queue.php:125-137 | If the input's keys are unique, the output's keys are unique too: dropping entries never duplicates a key. |
| Jobs.RunningKey | app/code/community/Pulchritudinous/Queue/Model/Queue.php:160-167 | The running key is the worker name, then "-", then the identity, character for character. |
| Jobs.RunningKeyCollision | app/code/community/Pulchritudinous/Queue/Model/Queue.php:160-167 | The distinct pairs (a-b, c) and (a, b-c) have the same running key. |
| Jobs.Save | app/code/community/Pulchritudinous/Queue/Model/Queue.php:229 | Saving a loaded labour rewrites every row with its id and leaves every other row, the table length and the next id unchanged. A labour whose id is in no row leaves the table as it was. finish and reschedule (line 252) both save this way. |
| Schedule.GetWhen | app/code/community/Pulchritudinous/Queue/Model/Queue.php:96-112 | An absolute date is taken as given. A numeric override puts the due time that many seconds after now. No override, or an unusable one, puts it the configured delay after now. |
| Schedule.GetWhenUnusableIsDefault | app/code/community/Pulchritudinous/Queue/Model/Queue.php:99-108 | An unusable override yields the same due time as no override. |
| Schedule.GetWhenShift | app/code/community/Pulchritudinous/Queue/Model/Queue.php:98-107 | Moving the clock by d moves every relative due time by d and leaves an absolute date where it is. |
| Admission.HasUnprocessedWorkerIdentity | app/code/community/Pulchritudinous/Queue/Model/Queue.php:60-63 | True if and only if some pending or running row belongs to the (worker, identity) pair. |
| Admission.SetStatusOnUnprocessed | app/code/community/Pulchritudinous/Queue/Model/Queue.php:69-73 | Every pending or running row of the pair takes the new status, and nothing else about it changes. Every other row is untouched. The table length is kept. |
| Admission.NewLabour | app/code/community/Pulchritudinous/Queue/Model/Queue.php:76-83 | The new row is pending, with the worker's configured priority, the sanitised object-free payload, the resolved due time, creation time now and no finish time. |
| Admission.Insert | app/code/community/Pulchritudinous/Queue/Model/Queue.php:76-83 | The new row is appended after all existing rows under the next auto-increment id, which then advances by one. Existing rows are untouched, and valid ids stay valid. |
| Admission.Add | app/code/community/Pulchritudinous/Queue/Model/Queue.php:46-85 | An unknown worker fails with UnknownWorker, and that check comes first. A known worker with a non-string identity fails with InvalidIdentity. Every other call succeeds. Under ignore, an existing unprocessed job of the pair leaves the table unchanged. Otherwise exactly one new pending row is appended with the next id. Under replace, existing unprocessed rows of the pair become replaced and all other rows are untouched. Under the other rules, existing rows are untouched. |
| Admission.AddReplaceLeavesOnlyNew | app/code/community/Pulchritudinous/Queue/Model/Queue.php:68-83 | After add under replace, the new row is the only unprocessed row of its pair, whatever the table held before. |
| Admission.AddKeepsAtMostOneUnprocessed | app/code/community/Pulchritudinous/Queue/Model/Queue.php:59-83 | Under ignore or replace, add never creates a second unprocessed row for any pair. |
| Admission.AddPreservesValid | app/code/community/Pulchritudinous/Queue/Model/Queue.php:46-85 | add keeps the store invariant: ids are unique and below the next id, every worker is registered, payloads are object-free, and terminal finished/unknown rows carry a finish time. |
| Reconcile.Scan | app/code/community/Pulchritudinous/Queue/Model/Queue.php:195-206 | A dead running row becomes unknown, finished at now, with no other field changed. Every other row is unchanged. The collected rows are exactly the live running rows. |
| Reconcile.GetRunning | app/code/community/Pulchritudinous/Queue/Model/Queue.php:186-213 | Dead running rows become unknown, finished at now. All other rows, live running ones included, are untouched. The collection is exactly the live running rows, and each of them is in the new table. Afterwards every running row is live and collected. When no row is dead, nothing is written. |
| Reconcile.GetRunningIdempotent | app/code/community/Pulchritudinous/Queue/Model/Queue.php:186-213 | A second reconciliation with the same liveness answers writes nothing and returns the same collection. |
| Reconcile.GetRunningPreservesValid | app/code/community/Pulchritudinous/Queue/Model/Queue.php:195-210 | Reconciliation keeps the store invariant. |
| Reservation.InsertByPriority | app/code/community/Pulchritudinous/Queue/Model/Queue.php:156-157 | Inserting into a list sorted by (priority, created_at) keeps it sorted and adds exactly the one element (multiset). |
| Reservation.SortByPriority | app/code/community/Pulchritudinous/Queue/Model/Queue.php:152-157 | The candidate list comes out ordered by priority ascending, then created_at ascending. It is a permutation of its input. |
| Reservation.DueJobs | app/code/community/Pulchritudinous/Queue/Model/Queue.php:152-155 | A row is selected if and only if it is pending and its due time is at or before now. |
| Reservation.RunningKeys | app/code/community/Pulchritudinous/Queue/Model/Queue.php:159-163 | The running set holds the key of every collected running row, and no other key. |
| Reservation.FirstNotHeldBack | app/code/community/Pulchritudinous/Queue/Model/Queue.php:165-178 | The scan returns a candidate that the wait rule does not hold back. In a sorted list, that candidate precedes every other one not held back. It returns none exactly when every candidate is held back. |
| Reservation.HeldBackIsWaitBlocked | app/code/community/Pulchritudinous/Queue/Model/Queue.php:159-173 | If the collection is exactly the table's running rows, then the scan's key test equals the wait gate on the table: a wait labour is held back if and only if some running row has its key. |
| Reservation.Reserve | app/code/community/Pulchritudinous/Queue/Model/Queue.php:147-179 | The only writes are reconciliation's, and the selected row is returned unchanged. It is a pending row whose due time has come. A wait labour is never returned while a running row shares its key. The returned row precedes every eligible row in (priority, created_at) order. False is returned if and only if no row is eligible. Only the wait rule ever holds a due labour back. |
| Reservation.RunningArray | app/code/community/Pulchritudinous/Queue/Model/Queue.php:159-163 | The source's running array has one key per collected running row, and every value is null. |
| Reservation.Isset | app/code/community/Pulchritudinous/Queue/Model/Queue.php:170 | PHP isset on an array: false for a missing key, false for a key whose value is null, true for a key with any other value. |
| Reservation.IssetNeverHoldsOnRunningArray | app/code/community/Pulchritudinous/Queue/Model/Queue.php:159-170 | A key is in the running array exactly when it is in the running set, and isset is false for every such key, so the wait test can never skip a labour. |
| Reservation.ReserveAsWritten | app/code/community/Pulchritudinous/Queue/Model/Queue.php:159-178 | As written, reserve returns the first due pending row in (priority, created_at) order and ignores the wait rule entirely. It returns false only when nothing is due. |
| Reservation.AsWrittenTakesOnlyDue | app/code/community/Pulchritudinous/Queue/Model/Queue.php:152-178 | When the only due pending row is x and no running row is dead, the code as written returns x and writes nothing, whatever the wait rule says. |
| Reservation.ReserveTakesSoleEligible | app/code/community/Pulchritudinous/Queue/Model/Queue.php:165-178 | When x is the only row that is due, pending and not held back by the wait rule after reconciliation, reserve returns x. |
| Reservation.DeadOwnerNeverBlocks | app/code/community/Pulchritudinous/Queue/Model/Queue.php:147-173 | If every running row with a labour's key belongs to a dead process, the wait gate does not hold that labour back on the table reserve leaves behind: reconciliation always runs before the gate. |
| Reservation.ReservePreservesValid | app/code/community/Pulchritudinous/Queue/Model/Queue.php:147-179 | reserve keeps the store invariant. |
| Transitions.Finish | app/code/community/Pulchritudinous/Queue/Model/Queue.php:222-232 | The labour becomes finished, finished at now, and no other field changes. The saved table holds it under its id. |
| Transitions.Reschedule | app/code/community/Pulchritudinous/Queue/Model/Queue.php:244-255 | The labour becomes pending, due at the time resolved from the worker's configuration and the delay. No other field changes, the stale pid included. The saved table holds it under its id. |
| Transitions.SaveRewritesOneRow | app/code/community/Pulchritudinous/Queue/Model/Queue.php:229 | With unique ids, saving a row's object rewrites that row alone and keeps the ids valid. |
| Transitions.FinishPreservesValid | app/code/community/Pulchritudinous/Queue/Model/Queue.php:222-232 | finish of a table row keeps the store invariant. |
| Transitions.ReschedulePreservesValid | app/code/community/Pulchritudinous/Queue/Model/Queue.php:244-255 | reschedule of a table row keeps the store invariant. |
| Transitions.FinishReleasesWait | app/code/community/Pulchritudinous/Queue/Model/Queue.php:222-232 | Finishing the only running labour of a key lets a wait labour of that key through reserve's gate again. |
| Transitions.RescheduleReleasesWait | app/code/community/Pulchritudinous/Queue/Model/Queue.php:244-255 | Rescheduling the only running labour of a key releases that key. The rescheduled row is due exactly from its resolved due time on. |
| Scenarios.WaitWhileOwnerAlive | app/code/community/Pulchritudinous/Queue/Model/Queue.php:165-173 | Job 1 of W/A runs under a live pid, and job 2 of W/A (rule wait) is due. reserve returns false and writes nothing. |
| Scenarios.WaitAfterOwnerDied | app/code/community/Pulchritudinous/Queue/Model/Queue.php:195-205 | The same table with the pid dead: reserve closes job 1 as unknown at now and returns job 2. |
| Scenarios.WaitIgnoredAsWritten | app/code/community/Pulchritudinous/Queue/Model/Queue.php:162-170 | On the same table with a live pid, the source as written returns job 2 although a running row shares its key. |
| Scenarios.DelayedLabourBecomesDue | app/code/community/Pulchritudinous/Queue/Model/Queue.php:96-103 | A labour added at t with a 10-second delay is due at t+10. reserve at t+5 returns false and reserve at t+11 returns it. |
| Scenarios.CollidingKeyHoldsBack | app/code/community/Pulchritudinous/Queue/Model/Queue.php:160-170 | A running (a-b, c) labour holds back a due wait labour of (a, b-c), although no labour of that pair runs. |
| Scenarios.SanitiseMixedPayload | app/code/community/Pulchritudinous/Queue/Model/Queue.php:121-140 | {a: [1, 2, {b: "x"}], obj: object} sanitises to {a: [1, 2, {b: "x"}]}. |
| Scenarios.SanitiseNestedObject | app/code/community/Pulchritudinous/Queue/Model/Queue.php:121-140 | {a: [1, object]} sanitises to {a: [1]}: an object inside a nested array is dropped and the rest of the nested array is kept. |

## Left out

- Magento plumbing (`Mage::getSingleton`, `getModel`, collections, the resource transaction): persistence is a pure update of the table, and the reconciliation batch is one atomic step.
- A failing transaction save in `getRunning`, which would throw out of `reserve`: the store is not modelled as able to fail.
- `posix_kill($pid, 0)`: replaced by the `isAlive` parameter, read once per call.
- `time()`, `now()`, `date()` formatting and `Zend_Date`: timestamps are integer seconds, and an absolute date is a `Schedule.Delay.At` timestamp.
- `serialize()` of the payload: the model stops at the sanitised structure.
- Float and resource values in payloads, and floating-point delays: floating point is not modelled.
- Concurrent workers, races between reservations, and marking a reserved labour running: none of these is done by this class.
- The worker runner, retries, recurring jobs, the worker-configuration test and the recurring test worker: they contain no queue-engine logic.
- Reservation.Reserve: requires every due pending labour to name a registered worker. The source fails on a missing configuration only for the candidates it actually scans. `add` stores only such labours (`Admission.AddPreservesValid`).
- Reservation.ReserveAsWritten: carries the same registered-worker precondition as `Reserve`.
- Transitions.Reschedule: requires the labour's worker to be registered. The source would fail on a missing configuration, and the model does not invent an error for that case.
- Schedule.GetWhen: the configured delay is an integer. A non-numeric configured delay, which PHP would coerce or reject, is not modelled.
- Reservation.SortByPriority: rows tying on priority and created_at keep table order. The source's SQL leaves their order unspecified.

## Findings

| source | as written | input that shows it | evidently intended | confidence | as-written member | corrected member |
|---|---|---|---|---|---|---|
| app/code/community/Pulchritudinous/Queue/Model/Queue.php:162-170 | Each running key is stored with the value `null` and then tested with `isset`. `isset` is false for a `null` value, so the `wait` rule never skips a labour. | Job 1 of W/A runs under a live pid 1234. Job 2 of W/A is pending and due, and W has rule `wait`. reserve returns job 2. | A `wait` labour is skipped while a running labour shares its key: membership in the running set. | high (not executed) | Reservation.ReserveAsWritten, shown by Scenarios.WaitIgnoredAsWritten | Reservation.Reserve, with Scenarios.WaitWhileOwnerAlive |

The corrected `Reserve` models the `wait` gate as membership of the labour's
key in the running set (`Reservation.RunningKeys`), which is what the gate
evidently intends. `Reservation.ReserveAsWritten` keeps the `isset` test on
the null-valued array, under which the gate never fires.
