/** The transaction record the views read and the account they belong to. */
module Records {
  import opened Wrappers
  import opened Calendar

  /** Primary key of an account row. */
  type AccountId = nat

  /** The transaction kinds the views tag their records with. */
  datatype TxType = Deposit | Withdrawal | Enquiry | Download

  /**
    One row of the transaction table. `amount` is a decimal held as an
    integer number of its smallest unit; `balanceAfter` is nullable.
   */
  datatype Transaction = Transaction(
    id: nat,
    account: AccountId,
    amount: int,
    balanceAfter: Option<int>,
    kind: TxType,
    timestamp: Timestamp)

  predicate NoDuplicates(s: seq<Transaction>) {
    forall i, j :: 0 <= i < j < |s| ==> s[i] != s[j]
  }

  /** The primary-key constraint of the transaction table. */
  predicate UniqueIds(txs: seq<Transaction>) {
    forall i, j :: 0 <= i < j < |txs| ==> txs[i].id != txs[j].id
  }
}
