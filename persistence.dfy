/** The two tables, `transactions_all` (the ledger) and `fraud_alerts`, and
    the two writers `write_all_transactions` and `write_alerts`. Each table
    is a map keyed by `transaction_id`; `clock` stands for the
    `CURRENT_TIMESTAMP` of the last committed write transaction. */
module Persistence {
  import opened Types

  // ---------------------------------------------------------------------
  // Row building (the loop before the ledger write).
  // ---------------------------------------------------------------------

  /** `alert_lookup`: transaction id to candidate; a later candidate for the
      same id replaces an earlier one, as in a dict comprehension. */
  function AlertLookup(cs: seq<AlertCandidate>): (lookup: map<string, AlertCandidate>)
    ensures lookup.Keys == CandidateIds(cs)
    ensures forall id :: id in lookup ==> lookup[id] in cs && lookup[id].transactionId == id
  {
    if cs == [] then map[]
    else
      var last := cs[|cs| - 1];
      var init := cs[..|cs| - 1];
      assert cs == init + [last];
      AlertLookup(init)[last.transactionId := last]
  }

  /** A ledger row is flag-consistent when risk score and reason are present
      exactly when it is flagged. */
  predicate FlagConsistent(row: LedgerRow) {
    row.riskScore.Some? == row.isFlagged && row.flaggedReason.Some? == row.isFlagged
  }

  /** The ledger row for one transaction: flagged when its id has a candidate,
      with that candidate's risk score and reason. */
  function RowFor(t: Txn, lookup: map<string, AlertCandidate>): (row: LedgerRow)
    ensures row.transactionId == t.transactionId && FlagConsistent(row)
    ensures row.isFlagged <==> t.transactionId in lookup
  {
    var flagged := t.transactionId in lookup;
    LedgerRow(t.transactionId, t.amount, t.location, t.device, flagged,
              if flagged then Some(lookup[t.transactionId].riskScore) else None,
              if flagged then Some(lookup[t.transactionId].flaggedReason) else None)
  }

  /** The batch `write_all_transactions` sends: one row per working-set row,
      in order, with the row's own values; `is_flagged` is decided by the id,
      not by the row, and risk and reason come from a candidate of that id. */
  function BuildRows(ws: seq<Txn>, cs: seq<AlertCandidate>): (rows: seq<LedgerRow>)
    ensures |rows| == |ws|
    ensures forall i :: 0 <= i < |ws| ==>
      && rows[i].transactionId == ws[i].transactionId
      && rows[i].amount == ws[i].amount
      && rows[i].location == ws[i].location
      && rows[i].device == ws[i].device
      && (rows[i].isFlagged <==> ws[i].transactionId in CandidateIds(cs))
      && FlagConsistent(rows[i])
    ensures forall i :: 0 <= i < |ws| && rows[i].isFlagged ==>
      exists c :: c in cs && c.transactionId == ws[i].transactionId
        && rows[i].riskScore == Some(c.riskScore) && rows[i].flaggedReason == Some(c.flaggedReason)
  {
    var lookup := AlertLookup(cs);
    seq(|ws|, i requires 0 <= i < |ws| => RowFor(ws[i], lookup))
  }

  /** The batch carries exactly the working set's ids. */
  lemma BuildRowsIds(ws: seq<Txn>, cs: seq<AlertCandidate>)
    ensures RowIds(BuildRows(ws, cs)) == TxnIds(ws)
  {
    var rows := BuildRows(ws, cs);
    forall id | id in TxnIds(ws) ensures id in RowIds(rows) {
      var i :| 0 <= i < |ws| && ws[i].transactionId == id;
      assert rows[i].transactionId == id;
    }
  }

  // ---------------------------------------------------------------------
  // Specification of the two writes.
  // ---------------------------------------------------------------------

  /** `INSERT ... ON CONFLICT (transaction_id) DO UPDATE`, row after row:
      every row overwrites whatever its id held and is stamped `now`. */
  function UpsertAll(ledger: map<string, LedgerRecord>, rows: seq<LedgerRow>, now: nat): map<string, LedgerRecord>
  {
    if rows == [] then ledger
    else
      var last := rows[|rows| - 1];
      var init := rows[..|rows| - 1];
      assert rows == init + [last];
      UpsertAll(ledger, init, now)[last.transactionId := LedgerRecord(last, now)]
  }

  /** `INSERT ... ON CONFLICT (transaction_id) DO NOTHING`, candidate after
      candidate: an id already present keeps its row; a new id gets one,
      created `now`. */
  function InsertAbsentAll(alerts: map<string, AlertRecord>, cs: seq<AlertCandidate>, now: nat): map<string, AlertRecord>
  {
    if cs == [] then alerts
    else
      var last := cs[|cs| - 1];
      var init := cs[..|cs| - 1];
      assert cs == init + [last];
      var before := InsertAbsentAll(alerts, init, now);
      if last.transactionId in before then before
      else before[last.transactionId := AlertRecord(last, now)]
  }

  /** The `fraud_alerts` CHECK constraint on a candidate: a risk score from 0
      to 100. The NOT NULL columns cannot be violated by a candidate, whose
      fields are never null; an empty reason is stored like any other. */
  predicate MeetsAlertConstraints(c: AlertCandidate) {
    0 <= c.riskScore <= 100
  }

  // ---------------------------------------------------------------------
  // Properties of the ledger upsert.
  // ---------------------------------------------------------------------

  /** The upsert keeps every old id and adds exactly the batch's ids. */
  lemma {:induction false} UpsertKeys(ledger: map<string, LedgerRecord>, rows: seq<LedgerRow>, now: nat)
    ensures UpsertAll(ledger, rows, now).Keys == ledger.Keys + RowIds(rows)
  {
    if rows != [] {
      var init := rows[..|rows| - 1];
      UpsertKeys(ledger, init, now);
      assert rows == init + [rows[|rows| - 1]];
      assert RowIds(rows) == RowIds(init) + {rows[|rows| - 1].transactionId};
    }
  }

  /** A ledger row whose id is not in the batch is left as it was. */
  lemma {:induction false} UpsertUntouched(ledger: map<string, LedgerRecord>, rows: seq<LedgerRow>, now: nat, id: string)
    requires id !in RowIds(rows)
    ensures id in UpsertAll(ledger, rows, now) <==> id in ledger
    ensures id in ledger ==> UpsertAll(ledger, rows, now)[id] == ledger[id]
  {
    if rows != [] {
      var init := rows[..|rows| - 1];
      assert RowIds(init) <= RowIds(rows);
      UpsertUntouched(ledger, init, now, id);
    }
  }

  /** Last write wins: the row of an id is its last occurrence in the batch,
      stamped `now`. */
  lemma {:induction false} UpsertLastWins(ledger: map<string, LedgerRecord>, rows: seq<LedgerRow>, now: nat, j: nat)
    requires j < |rows|
    requires forall k :: j < k < |rows| ==> rows[k].transactionId != rows[j].transactionId
    ensures rows[j].transactionId in UpsertAll(ledger, rows, now)
    ensures UpsertAll(ledger, rows, now)[rows[j].transactionId] == LedgerRecord(rows[j], now)
  {
    var init := rows[..|rows| - 1];
    if j < |rows| - 1 {
      UpsertLastWins(ledger, init, now, j);
    }
  }

  /** Every id of the batch has the contents of its last occurrence. */
  lemma UpsertBatchIds(ledger: map<string, LedgerRecord>, rows: seq<LedgerRow>, now: nat, id: string)
    requires id in RowIds(rows)
    ensures exists j ::
      && 0 <= j < |rows| && rows[j].transactionId == id
      && (forall k :: j < k < |rows| ==> rows[k].transactionId != id)
      && id in UpsertAll(ledger, rows, now)
      && UpsertAll(ledger, rows, now)[id] == LedgerRecord(rows[j], now)
  {
    var j := |rows| - 1;
    while rows[j].transactionId != id
      invariant 0 <= j < |rows|
      invariant forall k :: j < k < |rows| ==> rows[k].transactionId != id
      invariant exists k :: 0 <= k <= j && rows[k].transactionId == id
      decreases j
    {
      j := j - 1;
    }
    UpsertLastWins(ledger, rows, now, j);
  }

  /** When every candidate carries the same risk score and reason (as the
      classifier's do), upserting the built rows leaves each id of the
      working set with the values of its last occurrence, flagged exactly
      when the id has a candidate, with that score and reason when flagged. */
  lemma UpsertedRowOf(ledger: map<string, LedgerRecord>, ws: seq<Txn>, cs: seq<AlertCandidate>, now: nat, id: string)
    requires id in TxnIds(ws)
    requires forall k :: 0 <= k < |cs| ==> cs[k].riskScore == HighRisk && cs[k].flaggedReason == HighAmountReason
    ensures exists j ::
      && 0 <= j < |ws| && ws[j].transactionId == id
      && (forall k :: j < k < |ws| ==> ws[k].transactionId != id)
      && id in UpsertAll(ledger, BuildRows(ws, cs), now)
      && var flagged := id in CandidateIds(cs);
         UpsertAll(ledger, BuildRows(ws, cs), now)[id] == LedgerRecord(
           LedgerRow(id, ws[j].amount, ws[j].location, ws[j].device, flagged,
                     if flagged then Some(HighRisk) else None,
                     if flagged then Some(HighAmountReason) else None),
           now)
  {
    var rows := BuildRows(ws, cs);
    BuildRowsIds(ws, cs);
    UpsertBatchIds(ledger, rows, now, id);
    var j :| && 0 <= j < |rows| && rows[j].transactionId == id
             && (forall k :: j < k < |rows| ==> rows[k].transactionId != id)
             && id in UpsertAll(ledger, rows, now)
             && UpsertAll(ledger, rows, now)[id] == LedgerRecord(rows[j], now);
    if rows[j].isFlagged {
      var c :| c in cs && c.transactionId == id
        && rows[j].riskScore == Some(c.riskScore) && rows[j].flaggedReason == Some(c.flaggedReason);
      var k :| 0 <= k < |cs| && cs[k] == c;
    }
  }

  /** The upsert lays the batch's rows over the old table. */
  lemma {:induction false} UpsertOverlay(ledger: map<string, LedgerRecord>, rows: seq<LedgerRow>, now: nat)
    ensures UpsertAll(ledger, rows, now) == ledger + UpsertAll(map[], rows, now)
  {
    if rows != [] {
      var last := rows[|rows| - 1];
      var init := rows[..|rows| - 1];
      UpsertOverlay(ledger, init, now);
      var batch := UpsertAll(map[], init, now);
      assert (ledger + batch)[last.transactionId := LedgerRecord(last, now)]
          == ledger + batch[last.transactionId := LedgerRecord(last, now)];
    }
  }

  /** The batch's rows do not depend on the time stamp except for
      `processed_at`: two stampings of the same batch agree on keys and on
      row contents. */
  lemma {:induction false} UpsertRestamp(ledger: map<string, LedgerRecord>, rows: seq<LedgerRow>, t1: nat, t2: nat, id: string)
    requires id in RowIds(rows)
    ensures id in UpsertAll(ledger, rows, t1) && id in UpsertAll(ledger, rows, t2)
    ensures UpsertAll(ledger, rows, t1)[id].row == UpsertAll(ledger, rows, t2)[id].row
    ensures UpsertAll(ledger, rows, t1)[id].processedAt == t1
  {
    var last := rows[|rows| - 1];
    var init := rows[..|rows| - 1];
    if id != last.transactionId {
      assert id in RowIds(init);
      UpsertRestamp(ledger, init, t1, t2, id);
    }
  }

  /** Running the same batch twice gives the table one run at the second
      time stamp gives: the same keys and row contents as after the first
      run, only `processed_at` advanced. */
  lemma UpsertIdempotent(ledger: map<string, LedgerRecord>, rows: seq<LedgerRow>, t1: nat, t2: nat)
    ensures UpsertAll(UpsertAll(ledger, rows, t1), rows, t2) == UpsertAll(ledger, rows, t2)
    ensures UpsertAll(UpsertAll(ledger, rows, t1), rows, t2).Keys == UpsertAll(ledger, rows, t1).Keys
    ensures forall id :: id in UpsertAll(ledger, rows, t1) ==>
      UpsertAll(UpsertAll(ledger, rows, t1), rows, t2)[id].row == UpsertAll(ledger, rows, t1)[id].row
  {
    var once := UpsertAll(ledger, rows, t1);
    var batch := UpsertAll(map[], rows, t2);
    UpsertKeys(ledger, rows, t1);
    UpsertKeys(ledger, rows, t2);
    UpsertKeys(once, rows, t2);
    UpsertKeys(map[], rows, t2);
    UpsertOverlay(once, rows, t2);
    UpsertOverlay(ledger, rows, t2);
    assert once + batch == ledger + batch by {
      assert once.Keys + batch.Keys == ledger.Keys + batch.Keys;
      forall id | id in ledger && id !in batch ensures once[id] == ledger[id] {
        UpsertUntouched(ledger, rows, t1, id);
      }
    }
    forall id | id in once
      ensures UpsertAll(ledger, rows, t2)[id].row == once[id].row
    {
      if id in RowIds(rows) {
        UpsertRestamp(ledger, rows, t1, t2, id);
      } else {
        UpsertUntouched(ledger, rows, t1, id);
        UpsertUntouched(ledger, rows, t2, id);
      }
    }
  }

  // ---------------------------------------------------------------------
  // Properties of the alert insert.
  // ---------------------------------------------------------------------

  /** The insert keeps every old id with its row unchanged, and adds exactly
      the candidates' ids. */
  lemma {:induction false} InsertKeys(alerts: map<string, AlertRecord>, cs: seq<AlertCandidate>, now: nat)
    ensures InsertAbsentAll(alerts, cs, now).Keys == alerts.Keys + CandidateIds(cs)
    ensures forall id :: id in alerts ==> InsertAbsentAll(alerts, cs, now)[id] == alerts[id]
  {
    if cs != [] {
      var init := cs[..|cs| - 1];
      InsertKeys(alerts, init, now);
      assert cs == init + [cs[|cs| - 1]];
      CandidateIdsSnoc(cs);
    }
  }

  /** First detection wins: a new id gets the row of its first candidate. */
  lemma {:induction false} InsertFirstWins(alerts: map<string, AlertRecord>, cs: seq<AlertCandidate>, now: nat, j: nat)
    requires j < |cs| && cs[j].transactionId !in alerts
    requires forall k :: 0 <= k < j ==> cs[k].transactionId != cs[j].transactionId
    ensures cs[j].transactionId in InsertAbsentAll(alerts, cs, now)
    ensures InsertAbsentAll(alerts, cs, now)[cs[j].transactionId] == AlertRecord(cs[j], now)
  {
    var init := cs[..|cs| - 1];
    if j < |cs| - 1 {
      InsertFirstWins(alerts, init, now, j);
    } else {
      assert cs[j].transactionId !in CandidateIds(init);
      InsertKeys(alerts, init, now);
    }
  }

  /** Inserting candidates whose ids are all present changes nothing. */
  lemma {:induction false} InsertPresentIsNoop(alerts: map<string, AlertRecord>, cs: seq<AlertCandidate>, now: nat)
    requires CandidateIds(cs) <= alerts.Keys
    ensures InsertAbsentAll(alerts, cs, now) == alerts
  {
    if cs != [] {
      var init := cs[..|cs| - 1];
      assert CandidateIds(init) <= CandidateIds(cs);
      InsertPresentIsNoop(alerts, init, now);
    }
  }

  /** Running the same candidates twice leaves the alert table as the first
      run left it: one row per id, `created_at` of the first run. */
  lemma InsertIdempotent(alerts: map<string, AlertRecord>, cs: seq<AlertCandidate>, t1: nat, t2: nat)
    ensures InsertAbsentAll(InsertAbsentAll(alerts, cs, t1), cs, t2) == InsertAbsentAll(alerts, cs, t1)
  {
    InsertKeys(alerts, cs, t1);
    InsertPresentIsNoop(InsertAbsentAll(alerts, cs, t1), cs, t2);
  }

  /** The rows an insert actually adds are never more than the candidates
      attempted, and exactly as many when the ids are distinct and all new. */
  lemma InsertedAtMostAttempted(alerts: map<string, AlertRecord>, cs: seq<AlertCandidate>, now: nat)
    ensures |InsertAbsentAll(alerts, cs, now).Keys - alerts.Keys| <= |cs|
    ensures ((forall j, k :: 0 <= j < k < |cs| ==> cs[j].transactionId != cs[k].transactionId)
             && CandidateIds(cs) !! alerts.Keys) ==>
      |InsertAbsentAll(alerts, cs, now).Keys - alerts.Keys| == |cs|
  {
    InsertKeys(alerts, cs, now);
    CandidateIdsCard(cs);
    var added := InsertAbsentAll(alerts, cs, now).Keys - alerts.Keys;
    assert added == CandidateIds(cs) - alerts.Keys;
    assert added <= CandidateIds(cs);
    if CandidateIds(cs) !! alerts.Keys {
      assert added == CandidateIds(cs);
    }
  }

  // ---------------------------------------------------------------------
  // The database as a value, and the two writes on it.
  // ---------------------------------------------------------------------

  datatype Database = Database(ledger: map<string, LedgerRecord>, alerts: map<string, AlertRecord>, clock: nat)

  /** A stored ledger row is well formed: stored under its own id, flags
      consistent, stamped no later than `clock`. */
  predicate LedgerRecordOk(id: string, rec: LedgerRecord, clock: nat) {
    rec.row.transactionId == id && FlagConsistent(rec.row) && rec.processedAt <= clock
  }

  /** A stored alert row is well formed: stored under its own id, meeting the
      table's CHECK constraint, created no later than `clock`. */
  predicate AlertRecordOk(id: string, rec: AlertRecord, clock: nat) {
    rec.candidate.transactionId == id && MeetsAlertConstraints(rec.candidate) && rec.createdAt <= clock
  }

  predicate LedgerWellFormed(ledger: map<string, LedgerRecord>, clock: nat) {
    forall id :: id in ledger ==> LedgerRecordOk(id, ledger[id], clock)
  }

  predicate AlertsWellFormed(alerts: map<string, AlertRecord>, clock: nat) {
    forall id :: id in alerts ==> AlertRecordOk(id, alerts[id], clock)
  }

  lemma LedgerWellFormedLater(ledger: map<string, LedgerRecord>, clock: nat, later: nat)
    requires LedgerWellFormed(ledger, clock) && clock <= later
    ensures LedgerWellFormed(ledger, later)
  {
  }

  lemma AlertsWellFormedLater(alerts: map<string, AlertRecord>, clock: nat, later: nat)
    requires AlertsWellFormed(alerts, clock) && clock <= later
    ensures AlertsWellFormed(alerts, later)
  {
  }

  /** What the pipeline keeps true of the tables. */
  predicate WellFormed(db: Database) {
    LedgerWellFormed(db.ledger, db.clock) && AlertsWellFormed(db.alerts, db.clock)
  }

  /** Upserting flag-consistent rows at a time no earlier than the clock
      keeps the ledger well formed. */
  lemma {:induction false} UpsertWellFormed(ledger: map<string, LedgerRecord>, rows: seq<LedgerRow>, clock: nat, now: nat)
    requires LedgerWellFormed(ledger, clock) && clock <= now
    requires forall k :: 0 <= k < |rows| ==> FlagConsistent(rows[k])
    ensures LedgerWellFormed(UpsertAll(ledger, rows, now), now)
  {
    if rows == [] {
      assert forall id :: id in ledger ==> LedgerRecordOk(id, ledger[id], clock);
    } else {
      UpsertWellFormed(ledger, rows[..|rows| - 1], clock, now);
    }
  }

  /** Inserting candidates that meet the table's CHECK constraint at a time no
      earlier than the clock keeps the alert table well formed. */
  lemma {:induction false} InsertWellFormed(alerts: map<string, AlertRecord>, cs: seq<AlertCandidate>, clock: nat, now: nat)
    requires AlertsWellFormed(alerts, clock) && clock <= now
    requires forall k :: 0 <= k < |cs| ==> MeetsAlertConstraints(cs[k])
    ensures AlertsWellFormed(InsertAbsentAll(alerts, cs, now), now)
  {
    if cs == [] {
      assert forall id :: id in alerts ==> AlertRecordOk(id, alerts[id], clock);
    } else {
      InsertWellFormed(alerts, cs[..|cs| - 1], clock, now);
    }
  }

  /** One committed ledger transaction: the rows upserted, stamped with the
      next clock value. */
  function UpsertWrite(db: Database, rows: seq<LedgerRow>): (r: Database)
    ensures r.alerts == db.alerts && r.clock == db.clock + 1
  {
    Database(UpsertAll(db.ledger, rows, db.clock + 1), db.alerts, db.clock + 1)
  }

  /** One committed alert transaction: the candidates inserted where absent,
      created at the next clock value. */
  function InsertWrite(db: Database, cs: seq<AlertCandidate>): (r: Database)
    ensures r.ledger == db.ledger && r.clock == db.clock + 1
  {
    Database(db.ledger, InsertAbsentAll(db.alerts, cs, db.clock + 1), db.clock + 1)
  }

  /** The effect of `write_all_transactions`: nothing for an empty working
      set; otherwise one transaction upserting the built rows. The alert
      table is untouched. */
  function LedgerWrite(db: Database, ws: seq<Txn>, cs: seq<AlertCandidate>): (r: Database)
    ensures r.alerts == db.alerts
    ensures ws == [] ==> r == db
    ensures ws != [] ==> r.clock == db.clock + 1
  {
    if ws == [] then db else UpsertWrite(db, BuildRows(ws, cs))
  }

  /** The effect of a successful `write_alerts`: nothing for an empty list;
      otherwise one transaction inserting the absent ids. The ledger is
      untouched and existing alert rows are kept. */
  function AlertsWrite(db: Database, cs: seq<AlertCandidate>): (r: Database)
    ensures r.ledger == db.ledger
    ensures cs == [] ==> r == db
    ensures cs != [] ==> r.clock == db.clock + 1
  {
    if cs == [] then db else InsertWrite(db, cs)
  }

  /** After the ledger write, the ledger holds exactly the old ids and the
      ids of the working set. */
  lemma LedgerWriteKeys(db: Database, ws: seq<Txn>, cs: seq<AlertCandidate>)
    ensures LedgerWrite(db, ws, cs).ledger.Keys == db.ledger.Keys + TxnIds(ws)
  {
    if ws != [] {
      var rows := BuildRows(ws, cs);
      UpsertKeys(db.ledger, rows, db.clock + 1);
      assert RowIds(rows) == TxnIds(ws);
    }
  }

  /** After a successful alert write, the alert table holds exactly the old
      ids and the candidates' ids, and every old row is unchanged. */
  lemma AlertsWriteKeys(db: Database, cs: seq<AlertCandidate>)
    ensures AlertsWrite(db, cs).alerts.Keys == db.alerts.Keys + CandidateIds(cs)
    ensures forall id :: id in db.alerts ==> AlertsWrite(db, cs).alerts[id] == db.alerts[id]
  {
    InsertKeys(db.alerts, cs, db.clock + 1);
  }

  /** Upserting flag-consistent rows keeps the tables well formed. */
  lemma UpsertWritePreserves(db: Database, rows: seq<LedgerRow>)
    requires WellFormed(db)
    requires forall k :: 0 <= k < |rows| ==> FlagConsistent(rows[k])
    ensures WellFormed(UpsertWrite(db, rows))
  {
    UpsertWellFormed(db.ledger, rows, db.clock, db.clock + 1);
    AlertsWellFormedLater(db.alerts, db.clock, db.clock + 1);
  }

  /** Inserting candidates that meet the table's CHECK constraint keeps the
      tables well formed. */
  lemma InsertWritePreserves(db: Database, cs: seq<AlertCandidate>)
    requires WellFormed(db)
    requires forall k :: 0 <= k < |cs| ==> MeetsAlertConstraints(cs[k])
    ensures WellFormed(InsertWrite(db, cs))
  {
    InsertWellFormed(db.alerts, cs, db.clock, db.clock + 1);
    LedgerWellFormedLater(db.ledger, db.clock, db.clock + 1);
  }

  /** The ledger write keeps the tables well formed. */
  lemma LedgerWritePreserves(db: Database, ws: seq<Txn>, cs: seq<AlertCandidate>)
    requires WellFormed(db)
    ensures WellFormed(LedgerWrite(db, ws, cs))
  {
    if ws != [] {
      UpsertWritePreserves(db, BuildRows(ws, cs));
    }
  }

  // ---------------------------------------------------------------------
  // The store, updated in place.
  // ---------------------------------------------------------------------

  class Store {
    var ledger: map<string, LedgerRecord>
    var alerts: map<string, AlertRecord>
    var clock: nat

    /** The tables as a value. */
    function State(): Database
      reads this
    {
      Database(ledger, alerts, clock)
    }

    ghost predicate Valid()
      reads this
    {
      WellFormed(State())
    }

    /** Freshly created, empty tables (`ensure_schema` on an empty database). */
    constructor ()
      ensures Valid() && ledger == map[] && alerts == map[] && clock == 0
    {
      ledger, alerts, clock := map[], map[], 0;
    }

    /** `write_all_transactions`: a no-op for an empty working set; otherwise
        each built row is upserted in batch order inside one transaction,
        which commits at the end. */
    method WriteAllTransactions(ws: seq<Txn>, cs: seq<AlertCandidate>)
      requires Valid()
      modifies this
      ensures Valid()
      ensures State() == LedgerWrite(old(State()), ws, cs)
    {
      if |ws| == 0 {
        return;
      }
      ghost var before := State();
      var rows := BuildRows(ws, cs);
      var now := clock + 1;
      var table := ledger;
      var i := 0;
      while i < |rows|
        invariant 0 <= i <= |rows|
        invariant table == UpsertAll(ledger, rows[..i], now)
        invariant unchanged(this)
      {
        assert rows[..i + 1][..i] == rows[..i];
        table := table[rows[i].transactionId := LedgerRecord(rows[i], now)];
        i := i + 1;
      }
      assert rows[..i] == rows;
      UpsertWritePreserves(before, rows);
      ledger, clock := table, now;
      assert State() == UpsertWrite(before, rows);
    }

    /** `write_alerts`: returns `Ok(0)` and changes nothing for an empty list.
        Otherwise each candidate is inserted-if-absent in order inside one
        transaction; a candidate violating the table's CHECK constraint aborts it
        and nothing is committed; on success the number of candidates
        attempted (not the number newly inserted) is returned. */
    method WriteAlerts(cs: seq<AlertCandidate>) returns (r: Result<nat, PipelineError>)
      requires Valid()
      modifies this
      ensures Valid()
      ensures r.Err? <==> exists k :: 0 <= k < |cs| && !MeetsAlertConstraints(cs[k])
      ensures r.Err? ==> State() == old(State()) && exists k ::
        && 0 <= k < |cs| && !MeetsAlertConstraints(cs[k])
        && (forall q :: 0 <= q < k ==> MeetsAlertConstraints(cs[q]))
        && r.error == ConstraintViolation(cs[k].transactionId)
      ensures r.Ok? ==> r.value == |cs| && State() == AlertsWrite(old(State()), cs)
    {
      if |cs| == 0 {
        return Ok(0);
      }
      ghost var before := State();
      var now := clock + 1;
      var table := alerts;
      var i := 0;
      while i < |cs|
        invariant 0 <= i <= |cs|
        invariant forall k :: 0 <= k < i ==> MeetsAlertConstraints(cs[k])
        invariant table == InsertAbsentAll(alerts, cs[..i], now)
        invariant unchanged(this)
      {
        if !MeetsAlertConstraints(cs[i]) {
          return Err(ConstraintViolation(cs[i].transactionId));
        }
        assert cs[..i + 1][..i] == cs[..i];
        if cs[i].transactionId !in table {
          table := table[cs[i].transactionId := AlertRecord(cs[i], now)];
        }
        i := i + 1;
      }
      assert cs[..i] == cs;
      InsertWritePreserves(before, cs);
      alerts, clock := table, now;
      assert State() == InsertWrite(before, cs);
      r := Ok(|cs|);
    }
  }
}
