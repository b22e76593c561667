/**
  The rows the download view writes for an account: a fixed header row, then
  one row per distinct transaction of the account, with the field values of
  the transaction in column order.
 */
module Export {
  import opened Wrappers
  import opened Records
  import opened Reports

  /** A value written to one cell of the export. */
  datatype Cell = Text(text: string) | Num(n: int) | Null | Kind(kind: TxType)

  type Row = seq<Cell>

  /** Indexing the first transaction of an empty result raises. */
  datatype ExportError = IndexError

  const Columns: seq<string> := ["id", "account", "amount", "balance_after_transaction", "transaction_type"]

  function HeaderRow(): (r: Row)
    ensures |r| == |Columns| && forall i :: 0 <= i < |r| ==> r[i] == Text(Columns[i])
  {
    [Text("id"), Text("account"), Text("amount"), Text("balance_after_transaction"), Text("transaction_type")]
  }

  /**
    A transaction as a field-name to value dictionary, in field order; its
    keys are the header labels, column for column.
   */
  function FieldsOf(t: Transaction): (r: seq<(string, Cell)>)
    ensures |r| == |Columns|
    ensures forall i :: 0 <= i < |Columns| ==> r[i].0 == Columns[i]
  {
    [("id", Num(t.id)),
     ("account", Num(t.account)),
     ("amount", Num(t.amount)),
     ("balance_after_transaction", if t.balanceAfter.Some? then Num(t.balanceAfter.value) else Null),
     ("transaction_type", Kind(t.kind))]
  }

  /** The values of a dictionary, in its order. */
  function Values(fields: seq<(string, Cell)>): Row {
    seq(|fields|, i requires 0 <= i < |fields| => fields[i].1)
  }

  /** The exported row of a transaction: each cell holds the field its column names. */
  function RowOf(t: Transaction): (r: Row)
    ensures |r| == |Columns|
    ensures r[0] == Num(t.id) && r[1] == Num(t.account) && r[2] == Num(t.amount)
    ensures r[3] == Null <==> t.balanceAfter.None?
    ensures t.balanceAfter.Some? ==> r[3] == Num(t.balanceAfter.value)
    ensures r[4] == Kind(t.kind)
  {
    Values(FieldsOf(t))
  }

  /**
    What the download view writes for `account`: the unfiltered report of
    its transactions as rows under the header, or an error when it has none.
   */
  function ExportedRows(txs: seq<Transaction>, account: AccountId): Result<seq<Row>, ExportError> {
    var history := TransactionReport(txs, account, None);
    if |history| == 0 then Err(IndexError)
    else Ok([HeaderRow()] + seq(|history|, i requires 0 <= i < |history| => RowOf(history[i])))
  }

  /**
    The download view's row building: read the first transaction (which
    raises on an empty result), collect each transaction's dictionary, take
    the values of each, and write them under the header.
   */
  method BuildExportRows(txs: seq<Transaction>, account: AccountId) returns (r: Result<seq<Row>, ExportError>)
    ensures r == ExportedRows(txs, account)
  {
    var report := TransactionReport(txs, account, None);
    if |report| == 0 {
      return Err(IndexError);
    }
    var data: seq<seq<(string, Cell)>> := [];
    for i := 0 to |report|
      invariant |data| == i
      invariant forall k :: 0 <= k < i ==> data[k] == FieldsOf(report[k])
    {
      data := data + [FieldsOf(report[i])];
    }
    var rows: seq<Row> := [HeaderRow()];
    var dataList: seq<Row> := [];
    for j := 0 to |data|
      invariant |dataList| == j
      invariant forall k :: 0 <= k < j ==> dataList[k] == Values(data[k])
    {
      dataList := dataList + [Values(data[j])];
    }
    for j := 0 to |dataList|
      invariant rows == [HeaderRow()] + dataList[..j]
    {
      rows := rows + [dataList[j]];
    }
    assert dataList[..|dataList|] == dataList;
    assert dataList == seq(|report|, k requires 0 <= k < |report| => RowOf(report[k]));
    return Ok(rows);
  }

  /** The export fails exactly when the account has no transactions at all. */
  lemma ExportFailsIffNoTransactions(txs: seq<Transaction>, account: AccountId)
    ensures ExportedRows(txs, account).Err? <==> forall t :: t in txs ==> t.account != account
  {
    var history := TransactionReport(txs, account, None);
    if |history| > 0 {
      assert history[0] in history;
    }
  }

  /**
    A successful export is one header row, followed by one row per distinct
    transaction of the account in report order; no later row is a header.
   */
  lemma ExportShape(txs: seq<Transaction>, account: AccountId)
    requires ExportedRows(txs, account).Ok?
    ensures var rows := ExportedRows(txs, account).value;
      var history := TransactionReport(txs, account, None);
      |rows| == 1 + |history| && rows[0] == HeaderRow() &&
      (forall i :: 0 <= i < |history| ==> rows[i + 1] == RowOf(history[i])) &&
      (forall i :: 1 <= i < |rows| ==> rows[i] != HeaderRow())
  {
    var rows := ExportedRows(txs, account).value;
    forall i | 1 <= i < |rows|
      ensures rows[i] != HeaderRow()
    {
      assert rows[i][0].Num?;
    }
  }

  /**
    The export does not apply a report date range: every transaction of
    any dated report of the account has its row in the export.
   */
  lemma ExportIgnoresRange(txs: seq<Transaction>, account: AccountId, range: Option<DateRange>, t: Transaction)
    requires t in TransactionReport(txs, account, range)
    ensures ExportedRows(txs, account).Ok?
    ensures RowOf(t) in ExportedRows(txs, account).value[1..]
  {
    var history := TransactionReport(txs, account, None);
    assert t in history;
    var i :| 0 <= i < |history| && history[i] == t;
    var rows := ExportedRows(txs, account).value;
    assert rows[1..][i] == RowOf(t);
  }
}
