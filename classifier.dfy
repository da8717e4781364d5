/** `detect_fraud`: the single static rule, amount at or over 10000. */
module Classifier {
  import opened Types

  /** The rule: a transaction is suspicious when its amount reaches the
      threshold (inclusive). */
  predicate IsHigh(t: Txn) {
    t.amount >= Threshold
  }

  /** The alert emitted for a suspicious transaction. */
  function CandidateFor(t: Txn): AlertCandidate {
    AlertCandidate(t.transactionId, t.amount, HighRisk, HighAmountReason)
  }

  /** The ids of the transactions of `ws` that the rule flags. */
  function HighIds(ws: seq<Txn>): (ids: set<string>)
    ensures forall i :: 0 <= i < |ws| && IsHigh(ws[i]) ==> ws[i].transactionId in ids
    ensures forall id :: id in ids ==> exists i :: 0 <= i < |ws| && IsHigh(ws[i]) && ws[i].transactionId == id
  {
    set i | 0 <= i < |ws| && IsHigh(ws[i]) :: ws[i].transactionId
  }

  /** `detect_fraud`: one candidate per suspicious row, in input order. Every
      candidate is a suspicious row's, with risk 90 and reason "high_amount". */
  function DetectFraud(ws: seq<Txn>): (alerts: seq<AlertCandidate>)
    ensures |alerts| <= |ws|
    ensures forall k :: 0 <= k < |alerts| ==>
      alerts[k].riskScore == HighRisk && alerts[k].flaggedReason == HighAmountReason && alerts[k].amount >= Threshold
  {
    if ws == [] then []
    else
      var last := ws[|ws| - 1];
      DetectFraud(ws[..|ws| - 1]) + (if IsHigh(last) then [CandidateFor(last)] else [])
  }

  /** Classification distributes over concatenation: each row is judged on
      its own and the order of the input is kept. */
  lemma {:induction false} DetectFraudAppend(a: seq<Txn>, b: seq<Txn>)
    ensures DetectFraud(a + b) == DetectFraud(a) + DetectFraud(b)
  {
    if b == [] {
      assert a + b == a;
    } else {
      var b' := b[..|b| - 1];
      assert (a + b)[..|a + b| - 1] == a + b';
      DetectFraudAppend(a, b');
    }
  }

  /** A row produces exactly one candidate when it is at or over the
      threshold and none otherwise (9999.99 is not flagged, 10000 is). */
  lemma ClassifyOne(t: Txn)
    ensures DetectFraud([t]) == if t.amount >= 10000.0 then [CandidateFor(t)] else []
    ensures t.amount == 9999.99 ==> DetectFraud([t]) == []
    ensures t.amount == 10000.0 ==> DetectFraud([t]) == [AlertCandidate(t.transactionId, 10000.0, 90, "high_amount")]
  {
    assert [t][..0] == [];
  }

  /** Every candidate is the candidate of a suspicious row of the input, and
      every suspicious row has its candidate among the output. */
  lemma {:induction false} DetectFraudMembers(ws: seq<Txn>)
    ensures forall c :: c in DetectFraud(ws) <==>
      exists i :: 0 <= i < |ws| && IsHigh(ws[i]) && c == CandidateFor(ws[i])
  {
    if ws != [] {
      var init := ws[..|ws| - 1];
      DetectFraudMembers(init);
      forall c | c in DetectFraud(ws)
        ensures exists i :: 0 <= i < |ws| && IsHigh(ws[i]) && c == CandidateFor(ws[i])
      {
        if c in DetectFraud(init) {
          var i :| 0 <= i < |init| && IsHigh(init[i]) && c == CandidateFor(init[i]);
          assert ws[i] == init[i];
        } else {
          assert IsHigh(ws[|ws| - 1]) && c == CandidateFor(ws[|ws| - 1]);
        }
      }
      forall i | 0 <= i < |ws| && IsHigh(ws[i])
        ensures CandidateFor(ws[i]) in DetectFraud(ws)
      {
        if i < |ws| - 1 {
          assert init[i] == ws[i];
        }
      }
    }
  }

  /** The first suspicious row of an id yields the first candidate of that id. */
  lemma FirstCandidateOf(ws: seq<Txn>, j: nat)
    requires j < |ws| && IsHigh(ws[j])
    requires forall k :: 0 <= k < j && IsHigh(ws[k]) ==> ws[k].transactionId != ws[j].transactionId
    ensures exists p ::
      && 0 <= p < |DetectFraud(ws)| && DetectFraud(ws)[p] == CandidateFor(ws[j])
      && forall q :: 0 <= q < p ==> DetectFraud(ws)[q].transactionId != ws[j].transactionId
  {
    var cs := DetectFraud(ws);
    var pre := DetectFraud(ws[..j]);
    assert ws == ws[..j] + ([ws[j]] + ws[j + 1..]);
    DetectFraudAppend(ws[..j], [ws[j]] + ws[j + 1..]);
    DetectFraudAppend([ws[j]], ws[j + 1..]);
    ClassifyOne(ws[j]);
    assert cs == pre + ([CandidateFor(ws[j])] + DetectFraud(ws[j + 1..]));
    DetectFraudMembers(ws[..j]);
    forall q | 0 <= q < |pre| ensures pre[q].transactionId != ws[j].transactionId {
      assert pre[q] in pre;
      var i :| 0 <= i < j && IsHigh(ws[..j][i]) && pre[q] == CandidateFor(ws[..j][i]);
      assert ws[..j][i] == ws[i];
    }
    assert cs[|pre|] == CandidateFor(ws[j]);
    assert forall q :: 0 <= q < |pre| ==> cs[q] == pre[q];
  }

  /** The ids that receive an alert are exactly the ids of suspicious rows. */
  lemma FlaggedIdsAreHighIds(ws: seq<Txn>)
    ensures CandidateIds(DetectFraud(ws)) == HighIds(ws)
  {
    DetectFraudMembers(ws);
    var cs := DetectFraud(ws);
    forall id | id in CandidateIds(cs) ensures id in HighIds(ws) {
      var k :| 0 <= k < |cs| && cs[k].transactionId == id;
      assert cs[k] in cs;
    }
    forall id | id in HighIds(ws) ensures id in CandidateIds(cs) {
      var i :| 0 <= i < |ws| && IsHigh(ws[i]) && ws[i].transactionId == id;
      assert CandidateFor(ws[i]) in cs;
      var k :| 0 <= k < |cs| && cs[k] == CandidateFor(ws[i]);
      assert cs[k].transactionId == id;
    }
  }

  /** Candidate ids are drawn from the working set. */
  lemma FlaggedIdsInWorkingSet(ws: seq<Txn>)
    ensures CandidateIds(DetectFraud(ws)) <= TxnIds(ws)
  {
    FlaggedIdsAreHighIds(ws);
  }
}
