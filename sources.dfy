/** The secondary batch source (`load_file_or_synthetic`) and the merge of the
    drained queue items with it. */
module Sources {
  import opened Types

  /** What `load_file_or_synthetic` finds: a CSV file, already parsed into its
      column names and rows, or no file, in which case rows are generated
      from `baseId` (the run's `int(time.time())`). */
  datatype SecondarySource =
    | CsvFile(columns: set<string>, rows: seq<Txn>)
    | NoCsvFile(baseId: nat)

  /** Columns a CSV must have. */
  const RequiredColumns: set<string> := {"transaction_id", "amount"}

  /** Number of synthetic rows. */
  const SyntheticCount: nat := 50

  // ---------------------------------------------------------------------
  // Decimal rendering of an integer, as Python's f-string does it.
  // ---------------------------------------------------------------------

  function Digit(d: nat): (c: char)
    requires d < 10
    ensures '0' <= c <= '9'
    ensures c as int - '0' as int == d
  {
    ('0' as int + d) as char
  }

  /** The decimal digits of `n`, most significant first, no leading zeros. */
  function DecimalString(n: nat): (s: string)
    ensures 1 <= |s|
    ensures n >= 10 ==> 2 <= |s|
    ensures forall i :: 0 <= i < |s| ==> '0' <= s[i] <= '9'
  {
    if n < 10 then [Digit(n)] else DecimalString(n / 10) + [Digit(n % 10)]
  }

  /** Distinct numbers render as distinct strings. */
  lemma {:induction false} DecimalStringInjective(a: nat, b: nat)
    requires DecimalString(a) == DecimalString(b)
    ensures a == b
  {
    var s := DecimalString(a);
    if a < 10 && b < 10 {
      assert Digit(a) == s[0] == Digit(b);
    } else if a >= 10 && b >= 10 {
      var sa, sb := DecimalString(a / 10), DecimalString(b / 10);
      assert s == sa + [Digit(a % 10)] == sb + [Digit(b % 10)];
      assert Digit(a % 10) == s[|s| - 1] == Digit(b % 10);
      assert sa == s[..|s| - 1] == sb;
      DecimalStringInjective(a / 10, b / 10);
    } else {
      assert false;
    }
  }

  // ---------------------------------------------------------------------
  // Synthetic generator (used when there is no CSV file).
  // ---------------------------------------------------------------------

  /** The `i`-th synthetic row: a spike of 25000 every 7th row, 25 * i
      otherwise; "CAN" every 3rd row; "Mobile" every 2nd row. */
  function SyntheticRow(baseId: nat, i: nat): Txn
  {
    Txn("TXN" + DecimalString(baseId + i),
        if i % 7 != 0 then (25 * i) as real else 25000.0,
        Some(if i % 3 != 0 then "USA" else "CAN"),
        Some(if i % 2 != 0 then "Web" else "Mobile"))
  }

  /** Rows 1..n of the generator, in the order the loop appends them. */
  function SyntheticUpTo(baseId: nat, n: nat): (rows: seq<Txn>)
    ensures |rows| == n
    ensures forall k :: 0 <= k < n ==> rows[k] == SyntheticRow(baseId, k + 1)
  {
    if n == 0 then [] else SyntheticUpTo(baseId, n - 1) + [SyntheticRow(baseId, n)]
  }

  /** The generator's whole output: exactly `SyntheticCount` rows, the k-th
      being row k + 1. */
  function Synthetic(baseId: nat): (rows: seq<Txn>)
    ensures |rows| == SyntheticCount
    ensures forall k :: 0 <= k < SyntheticCount ==> rows[k] == SyntheticRow(baseId, k + 1)
  {
    SyntheticUpTo(baseId, SyntheticCount)
  }

  /** Every synthetic row carries a distinct id, `TXN{baseId + i}`. */
  lemma SyntheticIdsDistinct(baseId: nat, j: nat, k: nat)
    requires j < SyntheticCount && k < SyntheticCount && j != k
    ensures Synthetic(baseId)[j].transactionId != Synthetic(baseId)[k].transactionId
  {
    var dj, dk := DecimalString(baseId + j + 1), DecimalString(baseId + k + 1);
    if "TXN" + dj == "TXN" + dk {
      assert dj == ("TXN" + dj)[3..] == ("TXN" + dk)[3..] == dk;
      DecimalStringInjective(baseId + j + 1, baseId + k + 1);
    }
  }

  /** A synthetic row `i` of the generator's range is at or over the fraud
      threshold exactly when `i` is a multiple of 7. */
  lemma SyntheticRowHigh(baseId: nat, i: nat)
    requires 1 <= i <= SyntheticCount
    ensures SyntheticRow(baseId, i).amount >= Threshold <==> i % 7 == 0
  {
    if i % 7 != 0 {
      assert 25 * i <= 1250;
    }
  }

  // ---------------------------------------------------------------------
  // Loading and merging.
  // ---------------------------------------------------------------------

  /** `load_file_or_synthetic`: a CSV lacking `transaction_id` or `amount` is
      a fatal error naming the missing columns; a CSV with both yields its
      rows; no CSV yields the synthetic rows. */
  function LoadFileOrSynthetic(src: SecondarySource): (r: Result<seq<Txn>, PipelineError>)
    ensures r.Err? <==> src.CsvFile? && !(RequiredColumns <= src.columns)
    ensures r.Err? ==> r.error == MissingColumns(RequiredColumns - src.columns) && r.error.missing != {}
    ensures r.Ok? && src.CsvFile? ==> r.value == src.rows
    ensures src.NoCsvFile? ==> r == Ok(Synthetic(src.baseId)) && |r.value| == SyntheticCount
  {
    match src
    case CsvFile(columns, rows) =>
      if RequiredColumns <= columns then Ok(rows)
      else
        assert "transaction_id" !in columns || "amount" !in columns;
        Err(MissingColumns(RequiredColumns - columns))
    case NoCsvFile(baseId) => Ok(Synthetic(baseId))
  }

  /** The working set of a run: the drained queue items first, then the
      secondary rows, both in their own order, nothing removed. */
  function Merge(queued: seq<Txn>, base: seq<Txn>): (ws: seq<Txn>)
    ensures |ws| == |queued| + |base|
    ensures ws[..|queued|] == queued && ws[|queued|..] == base
    ensures queued == [] ==> ws == base
  {
    if queued == [] then base else queued + base
  }
}
