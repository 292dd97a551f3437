/** The chargeback handler: reverse a disputed deposit by removing its held amount,
    and lock the client's account. */
module ChargebackHandler {
  import opened Wrappers
  import opened Ledger
  import opened Checks

  /** The checks made before the handler writes the new status: the record names a
      stored deposit in status Disputed that belongs to the record's client, whose
      account exists and is unlocked, and the deposit has an amount. */
  predicate PassesLookup(s: State, rec: Record)
  {
    && RefersToDeposit(s, rec)
    && var e := s.transactions[rec.txId];
    && e.status == Disputed
    && e.client == rec.client
    && e.client in s.accounts
    && !s.accounts[e.client].locked
    && e.amount.Some?
  }

  /** A chargeback is accepted exactly when the lookup passes, the account is not in
      arrears, and its held funds cover the deposit's amount. */
  predicate Admits(s: State, rec: Record)
  {
    && PassesLookup(s, rec)
    && var amount := s.transactions[rec.txId].amount.value;
    && var a := s.accounts[rec.client];
    && a.available >= 0.0
    && a.held >= amount
  }

  /** The state with the referenced deposit's status set to Chargeback and nothing
      else changed. */
  function MarkCharged(s: State, txId: TxId): State
    requires txId in s.transactions
  {
    s.(transactions := s.transactions[txId := s.transactions[txId].(status := TxStatus.Chargeback)])
  }

  function Handle(s: State, rec: Record): (r: Step)
    // A chargeback never creates an account or a transaction entry.
    ensures r.state.accounts.Keys == s.accounts.Keys
    ensures r.state.transactions.Keys == s.transactions.Keys
    // Error precedence up to the status write: not a stored deposit, wrong status,
    // client mismatch, unknown account, locked account, missing amount.
    ensures !RefersToDeposit(s, rec) <==> r.error == Some(NotFound(rec.kind, rec.txId))
    ensures RefersToDeposit(s, rec) ==>
              var e := s.transactions[rec.txId];
              && (e.status != Disputed ==>
                    r.error == Some(IncorrectState(rec.kind, e.status, e.txId)))
              && (e.status == Disputed && e.client != rec.client ==>
                    r.error == Some(ClientIdMismatch(e.client, rec.client)))
              && (e.status == Disputed && e.client == rec.client && e.client !in s.accounts ==>
                    r.error == Some(AccountNotFound(e.client)))
              && (e.status == Disputed && e.client == rec.client && IsLocked(s, e.client) ==>
                    r.error == Some(AccountLocked(rec.client)))
              && (e.status == Disputed && e.client == rec.client && e.client in s.accounts &&
                  !s.accounts[e.client].locked && e.amount.None? ==>
                    r.error == Some(MissingAmount(rec.kind, rec.txId)))
    // Every rejection raised before the status write changes nothing.
    ensures !PassesLookup(s, rec) ==> r.error.Some? && r.state == s
    // After the lookup the deposit is marked Chargeback whatever follows; an account
    // in arrears is then refused, reporting available plus the amount ...
    ensures PassesLookup(s, rec) ==>
              && var amount := s.transactions[rec.txId].amount.value;
              && var a := s.accounts[rec.client];
              && r.state.transactions[rec.txId].status == TxStatus.Chargeback
              && (a.available < 0.0 ==>
                    r.error == Some(BalanceInsufficient(a.available + amount, rec.kind, rec.txId, amount)))
              && (a.available >= 0.0 && a.held < amount ==>
                    r.error == Some(BalanceInsufficient(a.held, rec.kind, rec.txId, amount)))
    // ... and such a balance rejection leaves the balances alone but keeps the new status.
    ensures r.error.Some? && r.error.value.BalanceInsufficient? ==>
              && PassesLookup(s, rec)
              && r.state == MarkCharged(s, rec.txId)
              && r.state.accounts == s.accounts
    ensures r.error.Some? && !r.error.value.BalanceInsufficient? ==> r.state == s
    ensures r.error.None? <==> Admits(s, rec)
    // An accepted chargeback removes the amount from held and total, leaves available
    // and the client field as they were, and locks the account.
    ensures r.error.None? ==>
              && var amount := s.transactions[rec.txId].amount.value;
              && var before := s.accounts[rec.client];
              && var a := r.state.accounts[rec.client];
              && r.state.transactions == MarkCharged(s, rec.txId).transactions
              && a.available == before.available
              && a.held == before.held - amount
              && a.held >= 0.0
              && a.total == before.total - amount
              && a.locked
              && a.client == before.client
    ensures r.error.None? ==> r.state.accounts - {rec.client} == s.accounts - {rec.client}
    ensures WellFormed(s) ==> WellFormed(r.state)
  {
    if !RefersToDeposit(s, rec) then Rejected(s, NotFound(rec.kind, rec.txId))
    else
      var tx := s.transactions[rec.txId];
      if tx.status != Disputed then Rejected(s, IncorrectState(rec.kind, tx.status, tx.txId))
      else
        match CheckClientId(rec, tx.client)
        case Fail(e) => Rejected(s, e)
        case Pass =>
          if tx.client !in s.accounts then Rejected(s, AccountNotFound(tx.client))
          else
            var account := s.accounts[tx.client];
            match CheckLocked(rec, account)
            case Fail(e) => Rejected(s, e)
            case Pass =>
              match tx.amount
              case None => Rejected(s, MissingAmount(rec.kind, rec.txId))
              case Some(amount) =>
                // The status is written before the balance checks below.
                var marked := MarkCharged(s, rec.txId);
                if account.available < 0.0 then
                  Rejected(marked, BalanceInsufficient(account.available + amount, rec.kind, rec.txId, amount))
                else
                  match CheckSufficientBalance(rec, account.held, amount)
                  case Fail(e) => Rejected(marked, e)
                  case Pass =>
                    var charged := account.(held := account.held - amount, total := account.total - amount, locked := true);
                    Accepted(marked.(accounts := s.accounts[tx.client := charged]))
  }
}
