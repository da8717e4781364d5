# Fraud detection batch ETL — a Dafny model

This project models one run of the batch fraud-detection ETL in `pipeline.py`.
A run does the following, in order:

1. It drains up to 5000 queued transactions from the front of a Redis list. The queue is optional.
2. It loads a secondary batch: the CSV file when there is one (it must have the `transaction_id` and `amount` columns), or 50 synthetic rows otherwise.
3. It concatenates the queued items before the secondary batch.
4. It flags every row whose amount is at least 10000 with risk score 90 and reason `high_amount`.
5. It writes every row to the ledger table `transactions_all` with `INSERT ... ON CONFLICT DO UPDATE`.
6. It writes the flagged rows to `fraud_alerts` with `INSERT ... ON CONFLICT DO NOTHING`.

Modules, one per stage:

- `Types` (types.dfy): the records passed between stages, the stored table rows, and the constants of the rule.
- `QueueDrain` (queue.dfy): `drain_queue`. The queue is a class whose `items` the `Drain` method pops in place, in a loop bounded by 5000.
- `Sources` (sources.dfy): `load_file_or_synthetic` and the merge in `main`. A CSV is given already parsed into its column set and rows. The synthetic generator is modelled exactly, including the `TXN{base_id + i}` ids rendered in decimal.
- `Classifier` (classifier.dfy): `detect_fraud`.
- `Persistence` (persistence.dfy): the two tables and the two writers.
  - Each table is a map keyed by `transaction_id`.
  - `clock` stands for `CURRENT_TIMESTAMP`. Each committed write transaction (the ledger write, then the alert write) advances it by one, and every row written in that transaction gets that stamp. The schema transaction of `ensure_schema` writes no rows and does not move it.
  - `UpsertAll` and `InsertAbsentAll` specify the two batch statements, row after row.
  - The `Store` class holds the tables and updates them in place. Its methods loop over the batch and commit at the end.
  - A `risk_score` CHECK violation in `fraud_alerts` rolls the transaction back and is returned as an error.
- `Pipeline` (pipeline.dfy): `main`, as the method `Run`. The lemmas about whole runs take the write phase as the value `PersistRun`.

## Model

| member | source | states |
|---|---|---|
| QueueDrain.DrainCount | pipeline.py:81-85 | The number of items drained is at most 5000 and at most the queue length. It equals the queue length whenever the queue holds at most 5000 items. |
| QueueDrain.TxnQueue.Drain | pipeline.py:73-89 | Without a queue configured, nothing is taken and the queue is unchanged. Otherwise exactly `DrainCount(length)` items are removed from the front and returned in queue order. The queue keeps the rest, and drained plus remaining is the old queue. |
| Sources.DecimalString | pipeline.py:109 | The decimal rendering of a number is non-empty and made only of digits. |
| Sources.DecimalStringInjective | pipeline.py:109 | Different numbers render as different digit strings. |
| Sources.Synthetic | pipeline.py:106-119 | The generator yields exactly 50 rows, and row k is the generator's row k+1: id, amount, location and device as the loop computes them. |
| Sources.SyntheticIdsDistinct | pipeline.py:106-109 | No two synthetic rows share a transaction id. |
| Sources.SyntheticRow | pipeline.py:109-118 | The generator's row i: id `TXN` followed by the decimal digits of `base_id + i`, amount 25000 for every 7th row and 25 * i otherwise, location "CAN" every 3rd row and "USA" otherwise, device "Mobile" every 2nd row and "Web" otherwise. |
| Sources.SyntheticRowHigh | pipeline.py:108-110 | A synthetic row reaches the threshold exactly when its index is a multiple of 7. |
| Sources.LoadFileOrSynthetic | pipeline.py:95-119 | A CSV lacking `transaction_id` or `amount` is an error naming exactly the missing columns, and only such a CSV is an error. A CSV with both columns yields its rows unchanged. No CSV yields exactly the generator's 50 rows, `Synthetic(baseId)`. |
| Sources.Merge | pipeline.py:223 | The working set is the drained items followed by the secondary rows, both in order, with nothing dropped. It is the secondary rows alone when nothing was drained. |
| Classifier.IsHigh | pipeline.py:128-129 | The rule: a row is suspicious when its amount is at least 10000, the boundary included. |
| Classifier.CandidateFor | pipeline.py:130-135 | The alert for a suspicious row: its id and amount, risk 90, reason `high_amount`. |
| Classifier.DetectFraud | pipeline.py:125-136 | There are never more candidates than rows. Every candidate has risk 90, reason `high_amount` and an amount of at least 10000. |
| Classifier.DetectFraudAppend | pipeline.py:125-136 | Classifying a concatenation gives the concatenation of the classifications: rows are judged independently and order is kept. |
| Classifier.ClassifyOne | pipeline.py:128-135 | A row gives one candidate exactly when its amount is at least 10000, and none otherwise. Boundary cases: 9999.99 gives none; 10000 gives one with risk 90 and reason `high_amount`. |
| Classifier.DetectFraudMembers | pipeline.py:125-136 | A candidate is in the output if and only if it is the candidate of some input row at or over the threshold. |
| Classifier.FirstCandidateOf | pipeline.py:125-136 | The first suspicious row of an id gives the first candidate with that id. |
| Classifier.FlaggedIdsAreHighIds | pipeline.py:129-131 | The ids with a candidate are exactly the ids of rows at or over the threshold. |
| Classifier.FlaggedIdsInWorkingSet | pipeline.py:131 | Every candidate id occurs in the working set. |
| Persistence.AlertLookup | pipeline.py:150 | The lookup's keys are exactly the candidate ids, and each maps to a candidate of that id. |
| Persistence.RowFor | pipeline.py:153-168 | The ledger row of one transaction keeps its id and is flag-consistent. It is flagged exactly when its id is a key of the lookup. |
| Persistence.BuildRows | pipeline.py:150-168 | One row per working-set row, in order, keeping its id, amount, location and device. `is_flagged` holds exactly when the id has a candidate. Risk and reason are present exactly when flagged, and come from a candidate of that id. |
| Persistence.BuildRowsIds | pipeline.py:152-168 | The batch carries exactly the working set's ids. |
| Persistence.UpsertAll | pipeline.py:170-190 | Specification of the ledger statement `INSERT ... ON CONFLICT DO UPDATE`, applied row after row in batch order: each row replaces whatever its id held and is stamped with the transaction's time. The Upsert lemmas below state its properties. |
| Persistence.InsertAbsentAll | pipeline.py:196-206 | Specification of the alert statement `INSERT ... ON CONFLICT DO NOTHING`, applied candidate after candidate: an id already present keeps its row, and a new id gets one created at the transaction's time. The Insert lemmas below state its properties. |
| Persistence.MeetsAlertConstraints | pipeline.py:50 | The `fraud_alerts` CHECK constraint: a risk score from 0 to 100. An empty reason satisfies `NOT NULL` and is accepted. |
| Persistence.UpsertKeys | pipeline.py:170-190 | After the upsert the ledger holds the old ids plus the batch's ids, and nothing else. |
| Persistence.UpsertUntouched | pipeline.py:170-190 | A ledger row whose id is not in the batch is left exactly as it was. |
| Persistence.UpsertLastWins | pipeline.py:179-186 | An id's row is its last occurrence in the batch, stamped with the transaction's time. |
| Persistence.UpsertBatchIds | pipeline.py:170-190 | Every id of the batch ends up holding the contents of its last occurrence. |
| Persistence.UpsertedRowOf | pipeline.py:150-190 | When all candidates carry risk 90 and `high_amount`, each working-set id ends with the values of its last occurrence. It is flagged exactly when the id has a candidate, with that risk and reason exactly when flagged. |
| Persistence.UpsertOverlay | pipeline.py:179-186 | The upsert lays the batch's rows over the old table. |
| Persistence.UpsertRestamp | pipeline.py:183 | Two stampings of the same batch agree on row contents, and `processed_at` is the transaction's time. |
| Persistence.UpsertIdempotent | pipeline.py:170-190 | Upserting a batch twice gives the same keys and row contents as once. Only `processed_at` moves to the second time. |
| Persistence.InsertKeys | pipeline.py:196-206 | The alert insert keeps every existing alert row unchanged and adds exactly the candidates' ids. |
| Persistence.InsertFirstWins | pipeline.py:202 | An id not yet in the table gets the row of its first candidate, created at the transaction's time. |
| Persistence.InsertPresentIsNoop | pipeline.py:202 | Inserting candidates whose ids are all present leaves the table unchanged. |
| Persistence.InsertIdempotent | pipeline.py:196-206 | Inserting the same candidates again leaves the table as the first insert left it, `created_at` included. |
| Persistence.InsertedAtMostAttempted | pipeline.py:207 | The rows actually added never outnumber the candidates counted. The two are equal when the ids are distinct and all new. |
| Persistence.UpsertWellFormed | pipeline.py:157-159 | Upserting flag-consistent rows keeps every ledger row stored under its own id, flag-consistent and stamped no later than the clock. |
| Persistence.InsertWellFormed | pipeline.py:46-53 | Inserting candidates that satisfy the `risk_score` CHECK constraint keeps every alert row under its own id, within that constraint and created no later than the clock. |
| Persistence.UpsertWrite | pipeline.py:170-190 | A ledger transaction changes only the ledger and advances the clock by one. |
| Persistence.InsertWrite | pipeline.py:196-206 | An alert transaction changes only the alert table and advances the clock by one. |
| Persistence.LedgerWrite | pipeline.py:142-190 | The ledger write leaves the alert table alone. It does nothing for an empty working set and commits one transaction otherwise. |
| Persistence.AlertsWrite | pipeline.py:193-207 | The alert write leaves the ledger alone. It does nothing for an empty list and commits one transaction otherwise. |
| Persistence.LedgerWriteKeys | pipeline.py:142-190 | After the ledger write the ledger holds the old ids plus the working set's ids. |
| Persistence.AlertsWriteKeys | pipeline.py:193-207 | After the alert write the table holds the old ids plus the candidate ids, and old rows are unchanged. |
| Persistence.UpsertWritePreserves | pipeline.py:170-190 | A ledger transaction of flag-consistent rows keeps both tables well formed. |
| Persistence.InsertWritePreserves | pipeline.py:196-206 | An alert transaction of candidates within the `risk_score` CHECK constraint keeps both tables well formed. |
| Persistence.LedgerWritePreserves | pipeline.py:142-190 | `write_all_transactions` keeps both tables well formed. |
| Persistence.Store.constructor | pipeline.py:42-67 | A fresh schema has empty tables, which are well formed. |
| Persistence.Store.WriteAllTransactions | pipeline.py:142-190 | The new state is the ledger write of the old state: a no-op for an empty working set, else one upsert transaction. The tables stay well formed. |
| Persistence.Store.WriteAlerts | pipeline.py:193-207 | It fails if and only if some candidate's risk score is outside 0 to 100. It then names the first such candidate and commits nothing. Otherwise it returns the number of candidates, and the new state is the alert write of the old. The tables stay well formed. |
| Pipeline.PersistRun | pipeline.py:227-234 | The write phase of a run leaves an empty working set's database as it was, and never moves the clock backwards. |
| Pipeline.Run | pipeline.py:213-239 | The queue loses exactly the drained prefix. A CSV missing a required column is an error and changes no table. Otherwise the summary reports the working set's size and the number flagged twice (detected, and returned by `write_alerts`). The tables are the write phase applied to the merged working set, and alert ids stay within ledger ids. |
| Pipeline.AlertsStayInLedger | pipeline.py:227-234 | If every alert id is a ledger id before a run, the same holds after it. |
| Pipeline.PersistRunLedger | pipeline.py:230-231 | After a run the ledger is the old ledger upserted with the built rows at the first transaction's time, or unchanged when the working set is empty. |
| Pipeline.PersistRunAlerts | pipeline.py:233-234 | After a run the alert table is the old table with the candidates inserted at the second transaction's time, or unchanged when nothing was flagged. |
| Pipeline.LedgerRowAfterRun | pipeline.py:227-231 | Each working-set id ends with the values of its last occurrence. It is flagged exactly when some row of that id reached the threshold, with risk 90 and `high_amount` exactly when flagged, and stamped by the ledger transaction. |
| Pipeline.LedgerOthersUnchanged | pipeline.py:231 | A ledger row whose id is outside the working set is neither added, removed nor changed by a run. |
| Pipeline.AlertsKeptByRun | pipeline.py:234 | A run never changes or removes an existing alert row. |
| Pipeline.NewAlertAfterRun | pipeline.py:227-234 | An id first flagged in this run gets the alert of its first suspicious row, created by the alert transaction. |
| Pipeline.RunTwice | pipeline.py:213-239 | Re-running the same working set keeps the ledger's ids and row contents and advances `processed_at` for its ids. The alert table stays exactly as the first run left it. |
| Pipeline.SyntheticFlaggedCount | pipeline.py:108-110 | Exactly 7 of the 50 synthetic rows are flagged. |
| Pipeline.SyntheticPrefixFlagged | pipeline.py:108-110 | Among the first n synthetic rows, n / 7 are flagged. |
| Pipeline.SingleHighTransaction | pipeline.py:213-239 | A single queued transaction T1 of 15000 with no secondary rows gives one flagged ledger row (risk 90, `high_amount`) and one alert, and the summary counts it as processed and flagged. |

## Left out

- Connection, environment and process handling are not modelled: `get_conn`, the missing-`NEON_CONN` exit, `conn.close`, the log lines and the exit code.
- The DDL of `ensure_schema` is not modelled beyond the columns it declares and the `risk_score` CHECK constraint of `fraud_alerts`. `Store.constructor` stands for a freshly created schema. `alert_id SERIAL` is never read and is not modelled.
- Redis I/O is not modelled. The queue holds already-parsed transactions, so a `json.loads` failure, which fails the run in the source, is not modelled. "Queue configured" is the boolean `queueEnabled`.
- CSV parsing by `pd.read_csv` and the `str()`/`float()` coercions are not modelled. A CSV is given as its column set and typed rows.
- Missing `location` and `device` are always `None` in the model. In the source this holds only when nothing was drained. Otherwise `pd.concat` adds those columns and fills the CSV rows with NaN, so `r.get(..., None)` returns NaN and the ledger receives a float NaN, not NULL. The model does not capture this.
- `base_id` comes from the wall clock, so it is a parameter of the model.
- Amounts are mathematical reals, not IEEE doubles. NaN and rounding are not modelled.
- `CURRENT_TIMESTAMP` is a logical clock that advances by one per committed write transaction, not wall-clock time.
- `execute_batch` paging (page size 100) is not modelled. The batch is applied statement by statement in order, inside one transaction, which gives the same result.
- Concurrent runs are not modelled: competing drains, and races on the same id between runs. A crash between the two write transactions is also not modelled.
- Persistence.Store.WriteAlerts: like the source, it returns the number of candidates attempted, not the number of rows newly inserted. `InsertedAtMostAttempted` bounds the difference.
- Sources.LoadFileOrSynthetic: the source has no switch to turn synthetic generation off. A test scenario with "no file and no synthetic rows" is therefore expressed as a CSV with the required columns and no rows, or as `Merge([t], [])` as in `SingleHighTransaction`.
- `streamlit_app.py` and `api.py` (the dashboard and the read-only API) are not part of this model.
