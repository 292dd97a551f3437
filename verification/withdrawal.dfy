/** The withdrawal handler: validate against an existing account, debit it and store
    the withdrawal. */
module WithdrawalHandler {
  import opened Wrappers
  import opened Ledger
  import opened Checks

  /** A withdrawal is accepted exactly when its id is new, it carries a non-negative
      amount, and the client has an unlocked account whose available funds cover it. */
  predicate Admits(s: State, rec: Record)
  {
    && rec.txId !in s.transactions
    && rec.amount.Some?
    && rec.amount.value >= 0.0
    && rec.client in s.accounts
    && !s.accounts[rec.client].locked
    && s.accounts[rec.client].available >= rec.amount.value
  }

  function Handle(s: State, rec: Record): (r: Step)
    // Error precedence: duplicate id, missing amount, negative amount, unknown
    // account, locked account, insufficient available funds.
    ensures rec.txId in s.transactions ==> r.error == Some(DuplicateTransaction(rec.txId))
    ensures rec.txId !in s.transactions && rec.amount.None? ==>
              r.error == Some(MissingAmount(rec.kind, rec.txId))
    ensures rec.txId !in s.transactions && rec.amount.Some? && rec.amount.value < 0.0 ==>
              r.error == Some(MustBePositive(rec.kind, rec.txId, rec.amount.value))
    ensures rec.txId !in s.transactions && rec.amount.Some? && rec.amount.value >= 0.0 && rec.client !in s.accounts ==>
              r.error == Some(AccountNotFound(rec.client))
    ensures rec.txId !in s.transactions && rec.amount.Some? && rec.amount.value >= 0.0 && IsLocked(s, rec.client) ==>
              r.error == Some(AccountLocked(rec.client))
    ensures rec.txId !in s.transactions && rec.amount.Some? && rec.amount.value >= 0.0 &&
            rec.client in s.accounts && !s.accounts[rec.client].locked &&
            s.accounts[rec.client].available < rec.amount.value ==>
              r.error == Some(BalanceInsufficient(s.accounts[rec.client].available, rec.kind, rec.txId, rec.amount.value))
    ensures r.error.None? <==> Admits(s, rec)
    // A rejected withdrawal changes nothing.
    ensures r.error.Some? ==> r.state == s
    // A withdrawal never creates (or removes) an account.
    ensures r.state.accounts.Keys == s.accounts.Keys
    // An accepted withdrawal lowers available and total by the amount, leaving
    // available non-negative and held, the lock and the client field untouched ...
    ensures r.error.None? ==>
              && rec.client in s.accounts
              && var before := s.accounts[rec.client];
              && var a := r.state.accounts[rec.client];
              && a.available == before.available - rec.amount.value
              && a.available >= 0.0
              && a.held == before.held
              && a.total == before.total - rec.amount.value
              && a.locked == before.locked
              && a.client == before.client
    // ... leaves every other client's account as it was ...
    ensures r.error.None? ==> r.state.accounts - {rec.client} == s.accounts - {rec.client}
    // ... and stores exactly one new entry, under the record's id, in status Valid.
    ensures r.error.None? ==>
              r.state.transactions == s.transactions[rec.txId := Entry(rec.kind, rec.client, rec.txId, rec.amount, Valid)]
    ensures WellFormed(s) && rec.kind == Withdrawal ==> WellFormed(r.state)
  {
    match CheckDuplicate(rec, s.transactions)
    case Fail(e) => Rejected(s, e)
    case Pass =>
      match rec.amount
      case None => Rejected(s, MissingAmount(rec.kind, rec.txId))
      case Some(amount) =>
        match CheckPositive(rec, amount)
        case Fail(e) => Rejected(s, e)
        case Pass =>
          if rec.client !in s.accounts then Rejected(s, AccountNotFound(rec.client))
          else
            var account := s.accounts[rec.client];
            match CheckLocked(rec, account)
            case Fail(e) => Rejected(s, e)
            case Pass =>
              match CheckSufficientBalance(rec, account.available, amount)
              case Fail(e) => Rejected(s, e)
              case Pass =>
                var debited := account.(available := account.available - amount, total := account.total - amount);
                Accepted(State(s.accounts[rec.client := debited], s.transactions[rec.txId := EntryOf(rec)]))
  }
}
