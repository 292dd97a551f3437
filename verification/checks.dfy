/** The validation steps shared by the handlers. Each takes the incoming record and
    read-only views of the state, and either passes or fails with a specific error;
    none of them can change the state. */
module Checks {
  import opened Wrappers
  import opened Ledger

  /** Rejects a negative amount; zero passes. */
  function CheckPositive(rec: Record, amount: Amount): (r: Outcome<TxError>)
    ensures r.Fail? <==> amount < 0.0
    ensures r.Fail? ==> r.error == MustBePositive(rec.kind, rec.txId, amount)
  {
    if amount < 0.0 then Fail(MustBePositive(rec.kind, rec.txId, amount)) else Pass
  }

  /** Rejects when `balance` does not cover `amount`; the error reports the balance
      that was examined. */
  function CheckSufficientBalance(rec: Record, balance: Amount, amount: Amount): (r: Outcome<TxError>)
    ensures r.Pass? <==> amount <= balance
    ensures r.Fail? ==> r.error == BalanceInsufficient(balance, rec.kind, rec.txId, amount)
  {
    if balance < amount then Fail(BalanceInsufficient(balance, rec.kind, rec.txId, amount)) else Pass
  }

  /** Rejects a record whose client is not the client `stored` on the referenced entry. */
  function CheckClientId(rec: Record, stored: ClientId): (r: Outcome<TxError>)
    ensures r.Pass? <==> rec.client == stored
    ensures r.Fail? ==> r.error == ClientIdMismatch(stored, rec.client)
  {
    if stored != rec.client then Fail(ClientIdMismatch(stored, rec.client)) else Pass
  }

  /** Rejects a record whose transaction id is already a key of the transactions table. */
  function CheckDuplicate(rec: Record, transactions: map<TxId, Entry>): (r: Outcome<TxError>)
    ensures r.Fail? <==> rec.txId in transactions
    ensures r.Fail? ==> r.error == DuplicateTransaction(rec.txId)
  {
    if rec.txId in transactions then Fail(DuplicateTransaction(rec.txId)) else Pass
  }

  /** Rejects any record aimed at a locked account, naming the record's client. */
  function CheckLocked(rec: Record, account: Account): (r: Outcome<TxError>)
    ensures r.Fail? <==> account.locked
    ensures r.Fail? ==> r.error == AccountLocked(rec.client)
  {
    if account.locked then Fail(AccountLocked(rec.client)) else Pass
  }
}
