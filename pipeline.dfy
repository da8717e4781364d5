/** `main`: drain, load, merge, classify, write the ledger, then the alerts. */
module Pipeline {
  import opened Types
  import opened QueueDrain
  import opened Sources
  import opened Classifier
  import opened Persistence

  /** The counts `main` reports: rows processed, alerts detected, and what
      `write_alerts` returned. */
  datatype Summary = Summary(totalTransactions: nat, totalFlagged: nat, alertsInserted: nat)

  /** The write phase of a run on the tables as a value: the ledger first,
      then the alerts, both from the same candidates. */
  function PersistRun(db: Database, ws: seq<Txn>): (r: Database)
    ensures ws == [] ==> r == db
    ensures r.clock >= db.clock && (ws != [] ==> r.clock > db.clock)
  {
    var cs := DetectFraud(ws);
    AlertsWrite(LedgerWrite(db, ws, cs), cs)
  }

  /** One run of `main`. The schema is taken as present (`store` holds its
      tables); `queueEnabled` says whether a queue is configured. */
  method Run(store: Store, queue: TxnQueue, queueEnabled: bool, source: SecondarySource)
    returns (r: Result<Summary, PipelineError>)
    requires store.Valid()
    modifies store, queue
    ensures store.Valid()
    ensures var n := if queueEnabled then DrainCount(|old(queue.items)|) else 0;
      && queue.items == old(queue.items)[n..]
      && match LoadFileOrSynthetic(source)
         case Err(e) => r == Err(e) && store.State() == old(store.State())
         case Ok(base) =>
           var ws := Merge(old(queue.items)[..n], base);
           && r == Ok(Summary(|ws|, |DetectFraud(ws)|, |DetectFraud(ws)|))
           && store.State() == PersistRun(old(store.State()), ws)
    ensures old(store.alerts.Keys <= store.ledger.Keys) ==> store.alerts.Keys <= store.ledger.Keys
  {
    var drained := queue.Drain(queueEnabled);
    var loaded := LoadFileOrSynthetic(source);
    if loaded.Err? {
      return Err(loaded.error);
    }
    var ws := Merge(drained, loaded.value);
    var alerts := DetectFraud(ws);
    store.WriteAllTransactions(ws, alerts);
    var written := store.WriteAlerts(alerts);
    if old(store.alerts.Keys <= store.ledger.Keys) {
      AlertsStayInLedger(old(store.State()), ws);
    }
    r := Ok(Summary(|ws|, |alerts|, written.value));
  }

  /** The alert table's ids stay among the ledger's ids across a run: the
      ledger is written first, with every id of the working set, and alert
      ids are drawn from the working set. */
  lemma AlertsStayInLedger(db: Database, ws: seq<Txn>)
    requires db.alerts.Keys <= db.ledger.Keys
    ensures PersistRun(db, ws).alerts.Keys <= PersistRun(db, ws).ledger.Keys
  {
    var cs := DetectFraud(ws);
    var mid := LedgerWrite(db, ws, cs);
    LedgerWriteKeys(db, ws, cs);
    AlertsWriteKeys(mid, cs);
    FlaggedIdsInWorkingSet(ws);
  }

  /** The ledger after a run's write phase: one upsert transaction when the
      working set is not empty. */
  lemma PersistRunLedger(db: Database, ws: seq<Txn>)
    ensures PersistRun(db, ws).ledger ==
      if ws == [] then db.ledger else UpsertAll(db.ledger, BuildRows(ws, DetectFraud(ws)), db.clock + 1)
  {
    var cs := DetectFraud(ws);
    assert PersistRun(db, ws).ledger == LedgerWrite(db, ws, cs).ledger;
  }

  /** The alert table after a run's write phase: one insert transaction,
      after the ledger's, when there are candidates. */
  lemma PersistRunAlerts(db: Database, ws: seq<Txn>)
    ensures PersistRun(db, ws).alerts ==
      if DetectFraud(ws) == [] then db.alerts else InsertAbsentAll(db.alerts, DetectFraud(ws), db.clock + 2)
  {
    var cs := DetectFraud(ws);
    if cs != [] {
      assert ws != [];
      var mid := LedgerWrite(db, ws, cs);
      assert mid.alerts == db.alerts && mid.clock == db.clock + 1;
      assert PersistRun(db, ws) == AlertsWrite(mid, cs);
      assert AlertsWrite(mid, cs) == InsertWrite(mid, cs);
    }
  }

  /** After a run, every id of the working set has one ledger row, holding
      the values of the id's last occurrence, flagged exactly when some row
      of that id (not necessarily the last) reaches the threshold, with risk
      90 and reason "high_amount" exactly when flagged, and stamped by the
      ledger transaction. */
  lemma LedgerRowAfterRun(db: Database, ws: seq<Txn>, id: string)
    requires id in TxnIds(ws)
    ensures exists j ::
      && 0 <= j < |ws| && ws[j].transactionId == id
      && (forall k :: j < k < |ws| ==> ws[k].transactionId != id)
      && id in PersistRun(db, ws).ledger
      && var flagged := id in HighIds(ws);
         PersistRun(db, ws).ledger[id] == LedgerRecord(
           LedgerRow(id, ws[j].amount, ws[j].location, ws[j].device, flagged,
                     if flagged then Some(HighRisk) else None,
                     if flagged then Some(HighAmountReason) else None),
           db.clock + 1)
  {
    var cs := DetectFraud(ws);
    assert ws != [];
    PersistRunLedger(db, ws);
    FlaggedIdsAreHighIds(ws);
    UpsertedRowOf(db.ledger, ws, cs, db.clock + 1, id);
  }

  /** A run leaves the ledger row of an id outside the working set as it was. */
  lemma LedgerOthersUnchanged(db: Database, ws: seq<Txn>, id: string)
    requires id !in TxnIds(ws)
    ensures id in PersistRun(db, ws).ledger <==> id in db.ledger
    ensures id in db.ledger ==> PersistRun(db, ws).ledger[id] == db.ledger[id]
  {
    PersistRunLedger(db, ws);
    if ws != [] {
      BuildRowsIds(ws, DetectFraud(ws));
      UpsertUntouched(db.ledger, BuildRows(ws, DetectFraud(ws)), db.clock + 1, id);
    }
  }

  /** A run never changes an existing alert row. */
  lemma AlertsKeptByRun(db: Database, ws: seq<Txn>)
    ensures forall id :: id in db.alerts ==> id in PersistRun(db, ws).alerts && PersistRun(db, ws).alerts[id] == db.alerts[id]
  {
    PersistRunAlerts(db, ws);
    InsertKeys(db.alerts, DetectFraud(ws), db.clock + 2);
  }

  /** An id first flagged in this run gets the alert of its first
      suspicious row, created by the alert transaction. */
  lemma NewAlertAfterRun(db: Database, ws: seq<Txn>, j: nat)
    requires j < |ws| && IsHigh(ws[j]) && ws[j].transactionId !in db.alerts
    requires forall k :: 0 <= k < j && IsHigh(ws[k]) ==> ws[k].transactionId != ws[j].transactionId
    ensures ws[j].transactionId in PersistRun(db, ws).alerts
    ensures PersistRun(db, ws).alerts[ws[j].transactionId] == AlertRecord(CandidateFor(ws[j]), db.clock + 2)
  {
    var cs := DetectFraud(ws);
    var id := ws[j].transactionId;
    FirstCandidateOf(ws, j);
    var p :| && 0 <= p < |cs| && cs[p] == CandidateFor(ws[j])
             && forall q :: 0 <= q < p ==> cs[q].transactionId != id;
    assert cs != [] && cs[p].transactionId == id;
    InsertFirstWins(db.alerts, cs, db.clock + 2, p);
    PersistRunAlerts(db, ws);
    assert PersistRun(db, ws).alerts == InsertAbsentAll(db.alerts, cs, db.clock + 2);
  }

  /** Running the same working set twice: the ledger keeps the same ids and
      row contents as after the first run, with `processed_at` advanced for
      the working set's ids; the alert table is exactly as the first run left
      it, `created_at` included. */
  lemma RunTwice(db: Database, ws: seq<Txn>)
    ensures var once := PersistRun(db, ws);
      var twice := PersistRun(once, ws);
      && twice.ledger.Keys == once.ledger.Keys
      && (forall id :: id in once.ledger ==> twice.ledger[id].row == once.ledger[id].row)
      && (forall id :: id in TxnIds(ws) ==>
            id in once.ledger && twice.ledger[id].processedAt == once.clock + 1 > once.ledger[id].processedAt)
      && twice.alerts == once.alerts
  {
    var once := PersistRun(db, ws);
    var cs := DetectFraud(ws);
    PersistRunLedger(db, ws);
    PersistRunLedger(once, ws);
    PersistRunAlerts(db, ws);
    PersistRunAlerts(once, ws);
    if ws != [] {
      var rows := BuildRows(ws, cs);
      var t1, t2 := db.clock + 1, once.clock + 1;
      UpsertIdempotent(db.ledger, rows, t1, t2);
      BuildRowsIds(ws, cs);
      forall id | id in TxnIds(ws)
        ensures id in once.ledger && PersistRun(once, ws).ledger[id].processedAt == t2
        ensures once.ledger[id].processedAt == t1
      {
        UpsertRestamp(db.ledger, rows, t2, t1, id);
        UpsertRestamp(db.ledger, rows, t1, t2, id);
      }
      if cs != [] {
        InsertIdempotent(db.alerts, cs, db.clock + 2, once.clock + 2);
      }
    }
  }

  /** Exactly 7 of the 50 synthetic rows are flagged (rows 7, 14, ..., 49). */
  lemma SyntheticFlaggedCount(baseId: nat)
    ensures |DetectFraud(Synthetic(baseId))| == 7
  {
    SyntheticPrefixFlagged(baseId, SyntheticCount);
  }

  /** Among the first n synthetic rows, n / 7 are flagged. */
  lemma {:induction false} SyntheticPrefixFlagged(baseId: nat, n: nat)
    requires n <= SyntheticCount
    ensures |DetectFraud(SyntheticUpTo(baseId, n))| == n / 7
  {
    if n > 0 {
      var rows := SyntheticUpTo(baseId, n);
      assert rows[..n - 1] == SyntheticUpTo(baseId, n - 1);
      SyntheticPrefixFlagged(baseId, n - 1);
      SyntheticRowHigh(baseId, n);
      assert rows[n - 1] == SyntheticRow(baseId, n);
      assert n / 7 == (n - 1) / 7 + (if n % 7 == 0 then 1 else 0);
    }
  }

  /** A single queued transaction of 15000 with no secondary rows: the ledger
      gets one flagged row for it and the alert table one alert. */
  lemma SingleHighTransaction()
    ensures var t := Txn("T1", 15000.0, Some("USA"), Some("Web"));
      var db := PersistRun(Database(map[], map[], 0), Merge([t], []));
      && db.ledger == map["T1" := LedgerRecord(LedgerRow("T1", 15000.0, Some("USA"), Some("Web"), true, Some(90), Some("high_amount")), 1)]
      && db.alerts == map["T1" := AlertRecord(AlertCandidate("T1", 15000.0, 90, "high_amount"), 2)]
      && |Merge([t], [])| == 1 && |DetectFraud(Merge([t], []))| == 1
  {
    var t := Txn("T1", 15000.0, Some("USA"), Some("Web"));
    ClassifyOne(t);
    var cs := [CandidateFor(t)];
    assert Merge([t], []) == [t];
    assert AlertLookup(cs) == map["T1" := CandidateFor(t)] by {
      assert cs[..0] == [];
    }
    var rows := BuildRows([t], cs);
    assert rows == [LedgerRow("T1", 15000.0, Some("USA"), Some("Web"), true, Some(90), Some("high_amount"))];
    assert rows[..0] == [] && cs[..0] == [];
  }
}
