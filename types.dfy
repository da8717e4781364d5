/** The records the fraud ETL passes between its stages and keeps in its two
    tables, and the constants of its single fraud rule. */
module Types {

  datatype Option<+T> = None | Some(value: T)

  datatype Result<+T, +E> = Ok(value: T) | Err(error: E)

  /** Fatal errors of a pipeline run. */
  datatype PipelineError =
    | MissingColumns(missing: set<string>)        // the CSV lacks a required column
    | ConstraintViolation(transactionId: string)  // a fraud_alerts CHECK constraint failed

  /** A transaction of the working set. `location` and `device` are `None`
      when the row came from a CSV without those columns. */
  datatype Txn = Txn(transactionId: string, amount: real, location: Option<string>, device: Option<string>)

  /** One element of the list `detect_fraud` returns. */
  datatype AlertCandidate = AlertCandidate(transactionId: string, amount: real, riskScore: int, flaggedReason: string)

  /** One row of the batch `write_all_transactions` sends to `transactions_all`. */
  datatype LedgerRow = LedgerRow(
    transactionId: string,
    amount: real,
    location: Option<string>,
    device: Option<string>,
    isFlagged: bool,
    riskScore: Option<int>,
    flaggedReason: Option<string>)

  /** A stored `transactions_all` row: the values last written and `processed_at`. */
  datatype LedgerRecord = LedgerRecord(row: LedgerRow, processedAt: nat)

  /** A stored `fraud_alerts` row: the candidate first inserted and `created_at`. */
  datatype AlertRecord = AlertRecord(candidate: AlertCandidate, createdAt: nat)

  /** Amounts at or above this are flagged. */
  const Threshold: real := 10000.0
  /** Risk score and reason of every alert. */
  const HighRisk: int := 90
  const HighAmountReason: string := "high_amount"

  /** The set of transaction ids occurring in a working set. */
  function TxnIds(ws: seq<Txn>): set<string>
  {
    set i | 0 <= i < |ws| :: ws[i].transactionId
  }

  /** The set of transaction ids occurring in a list of alert candidates. */
  function CandidateIds(cs: seq<AlertCandidate>): set<string>
  {
    set i | 0 <= i < |cs| :: cs[i].transactionId
  }

  /** The set of transaction ids occurring in a batch of ledger rows. */
  function RowIds(rows: seq<LedgerRow>): set<string>
  {
    set i | 0 <= i < |rows| :: rows[i].transactionId
  }

  /** Appending a candidate adds its id. */
  lemma CandidateIdsSnoc(cs: seq<AlertCandidate>)
    requires cs != []
    ensures CandidateIds(cs) == CandidateIds(cs[..|cs| - 1]) + {cs[|cs| - 1].transactionId}
  {
    var init := cs[..|cs| - 1];
    forall id | id in CandidateIds(cs) ensures id in CandidateIds(init) + {cs[|cs| - 1].transactionId} {
      var i :| 0 <= i < |cs| && cs[i].transactionId == id;
      if i < |cs| - 1 {
        assert init[i] == cs[i];
      }
    }
    forall id | id in CandidateIds(init) ensures id in CandidateIds(cs) {
      var i :| 0 <= i < |init| && init[i].transactionId == id;
      assert cs[i] == init[i];
    }
  }

  /** A list of candidates has at most as many distinct ids as elements, and
      exactly as many when no id repeats. */
  lemma {:induction false} CandidateIdsCard(cs: seq<AlertCandidate>)
    ensures |CandidateIds(cs)| <= |cs|
    ensures (forall j, k :: 0 <= j < k < |cs| ==> cs[j].transactionId != cs[k].transactionId) ==>
      |CandidateIds(cs)| == |cs|
  {
    if cs != [] {
      var init := cs[..|cs| - 1];
      var last := cs[|cs| - 1];
      CandidateIdsSnoc(cs);
      CandidateIdsCard(init);
      if forall j, k :: 0 <= j < k < |cs| ==> cs[j].transactionId != cs[k].transactionId {
        assert forall j, k :: 0 <= j < k < |init| ==> init[j].transactionId != init[k].transactionId by {
          forall j, k | 0 <= j < k < |init| ensures init[j].transactionId != init[k].transactionId {
            assert init[j] == cs[j] && init[k] == cs[k];
          }
        }
        assert last.transactionId !in CandidateIds(init);
      }
    }
  }
}
