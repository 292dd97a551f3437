/** The dispute handler: put a stored deposit on hold by moving its amount from the
    client's available funds to held funds. */
module DisputeHandler {
  import opened Wrappers
  import opened Ledger
  import opened Checks

  /** A dispute is accepted exactly when it names a stored deposit in status Valid
      that belongs to the record's client, the client's account exists and is
      unlocked, and the deposit has an amount. */
  predicate Admits(s: State, rec: Record)
  {
    && RefersToDeposit(s, rec)
    && var e := s.transactions[rec.txId];
    && e.status == Valid
    && e.client == rec.client
    && e.client in s.accounts
    && !s.accounts[e.client].locked
    && e.amount.Some?
  }

  function Handle(s: State, rec: Record): (r: Step)
    // Error precedence: not a stored deposit, wrong status, client mismatch,
    // unknown account, locked account, missing amount.
    ensures !RefersToDeposit(s, rec) <==> r.error == Some(NotFound(rec.kind, rec.txId))
    ensures RefersToDeposit(s, rec) ==>
              var e := s.transactions[rec.txId];
              && (e.status != Valid ==>
                    r.error == Some(IncorrectState(rec.kind, e.status, e.txId)))
              && (e.status == Valid && e.client != rec.client ==>
                    r.error == Some(ClientIdMismatch(e.client, rec.client)))
              && (e.status == Valid && e.client == rec.client && e.client !in s.accounts ==>
                    r.error == Some(AccountNotFound(e.client)))
              && (e.status == Valid && e.client == rec.client && IsLocked(s, e.client) ==>
                    r.error == Some(AccountLocked(rec.client)))
              && (e.status == Valid && e.client == rec.client && e.client in s.accounts &&
                  !s.accounts[e.client].locked && e.amount.None? ==>
                    r.error == Some(MissingAmount(rec.kind, rec.txId)))
    ensures r.error.None? <==> Admits(s, rec)
    // A rejected dispute changes nothing.
    ensures r.error.Some? ==> r.state == s
    // A dispute never creates an account or a transaction entry.
    ensures r.state.accounts.Keys == s.accounts.Keys
    ensures r.state.transactions.Keys == s.transactions.Keys
    // An accepted dispute moves the deposit from Valid to Disputed and its amount
    // from available to held; total, the lock and the client field are untouched,
    // and no funds check is made, so available may become negative.
    ensures r.error.None? ==>
              && var e := s.transactions[rec.txId];
              && var amount := e.amount.value;
              && var before := s.accounts[rec.client];
              && var a := r.state.accounts[rec.client];
              && r.state.transactions == s.transactions[rec.txId := e.(status := Disputed)]
              && a.available == before.available - amount
              && a.held == before.held + amount
              && a.total == before.total
              && a.locked == before.locked
              && a.client == before.client
    ensures r.error.None? ==> r.state.accounts - {rec.client} == s.accounts - {rec.client}
    ensures WellFormed(s) ==> WellFormed(r.state)
  {
    if !RefersToDeposit(s, rec) then Rejected(s, NotFound(rec.kind, rec.txId))
    else
      var tx := s.transactions[rec.txId];
      if tx.status != Valid then Rejected(s, IncorrectState(rec.kind, tx.status, tx.txId))
      else
        match CheckClientId(rec, tx.client)
        case Fail(e) => Rejected(s, e)
        case Pass =>
          if tx.client !in s.accounts then Rejected(s, AccountNotFound(tx.client))
          else
            var account := s.accounts[tx.client];
            match CheckLocked(rec, account)
            case Fail(e) => Rejected(s, e)
            case Pass =>
              match tx.amount
              case None => Rejected(s, MissingAmount(rec.kind, rec.txId))
              case Some(amount) =>
                var moved := account.(available := account.available - amount, held := account.held + amount);
                Accepted(State(s.accounts[tx.client := moved], s.transactions[rec.txId := tx.(status := Disputed)]))
  }
}
