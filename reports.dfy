/**
  The transaction report: the requesting account's transactions, optionally
  restricted to an inclusive range of dates, with duplicate rows removed.
 */
module Reports {
  import opened Wrappers
  import opened Calendar
  import opened Records

  /** An inclusive range of calendar dates. */
  datatype DateRange = DateRange(start: Date, end: Date)

  /** No range keeps every date; a range keeps `start <= d <= end`. */
  predicate InRange(d: Date, range: Option<DateRange>) {
    range.None? || (DateLe(range.value.start, d) && DateLe(d, range.value.end))
  }

  /** The row condition the report's query puts on a transaction. */
  predicate Selected(t: Transaction, account: AccountId, range: Option<DateRange>) {
    t.account == account && InRange(t.timestamp.date, range)
  }

  /** The rows of `txs` that satisfy the report's condition, in their stored order. */
  function Select(txs: seq<Transaction>, account: AccountId, range: Option<DateRange>): (r: seq<Transaction>)
    ensures |r| <= |txs|
    ensures forall t :: t in r <==> t in txs && Selected(t, account, range)
    decreases |txs|
  {
    if txs == [] then []
    else
      var rest := Select(txs[1..], account, range);
      if Selected(txs[0], account, range) then [txs[0]] + rest else rest
  }

  /** `txs` with every repeated row dropped after its first occurrence. */
  function Distinct(txs: seq<Transaction>): (r: seq<Transaction>)
    ensures NoDuplicates(r)
    ensures forall t :: t in r <==> t in txs
    ensures |r| <= |txs|
    decreases |txs|
  {
    if txs == [] then []
    else
      var init := txs[..|txs| - 1];
      var last := txs[|txs| - 1];
      var kept := Distinct(init);
      assert txs == init + [last];
      if last in kept then kept else kept + [last]
  }

  /**
    The report: the account's transactions, restricted to `range` when one
    is given, without duplicates.
   */
  function TransactionReport(txs: seq<Transaction>, account: AccountId, range: Option<DateRange>): (r: seq<Transaction>)
    ensures forall t :: t in r ==> t.account == account
    ensures forall t :: t in r && range.Some? ==> DateLe(range.value.start, t.timestamp.date) && DateLe(t.timestamp.date, range.value.end)
    ensures forall t :: t in r <==> t in txs && Selected(t, account, range)
    ensures NoDuplicates(r)
  {
    Distinct(Select(txs, account, range))
  }

  /** Dropping duplicates from a sequence that has none changes nothing. */
  lemma {:induction false} DistinctOfUnique(txs: seq<Transaction>)
    requires NoDuplicates(txs)
    ensures Distinct(txs) == txs
    decreases |txs|
  {
    if txs != [] {
      var init := txs[..|txs| - 1];
      assert NoDuplicates(init);
      DistinctOfUnique(init);
      assert txs[|txs| - 1] !in init;
      assert txs == init + [txs[|txs| - 1]];
    }
  }

  /** Distinct primary keys make distinct rows. */
  lemma UniqueIdsNoDuplicates(txs: seq<Transaction>)
    requires UniqueIds(txs)
    ensures NoDuplicates(txs)
  {
  }

  /** Selecting from a sequence without duplicates keeps it without duplicates. */
  lemma {:induction false} SelectOfUnique(txs: seq<Transaction>, account: AccountId, range: Option<DateRange>)
    requires NoDuplicates(txs)
    ensures NoDuplicates(Select(txs, account, range))
    decreases |txs|
  {
    if txs != [] {
      assert NoDuplicates(txs[1..]);
      SelectOfUnique(txs[1..], account, range);
      assert txs[0] !in txs[1..];
    }
  }

  /**
    Over a table whose rows have distinct primary keys, the report is exactly
    the filtered rows in their stored order: the distinct step drops nothing.
   */
  lemma ReportOfKeyedTable(txs: seq<Transaction>, account: AccountId, range: Option<DateRange>)
    requires UniqueIds(txs)
    ensures TransactionReport(txs, account, range) == Select(txs, account, range)
  {
    UniqueIdsNoDuplicates(txs);
    SelectOfUnique(txs, account, range);
    DistinctOfUnique(Select(txs, account, range));
  }

  /** A dated report never holds a transaction the undated report lacks. */
  lemma ReportWithinHistory(txs: seq<Transaction>, account: AccountId, range: Option<DateRange>)
    ensures forall t :: t in TransactionReport(txs, account, range) ==> t in TransactionReport(txs, account, None)
  {
  }
}
