/** The deposit handler: validate, create the account on first use, credit it and
    store the deposit. */
module DepositHandler {
  import opened Wrappers
  import opened Ledger
  import opened Checks

  /** A deposit is accepted exactly when its id is new, it carries a non-negative
      amount, and the client has no locked account. */
  predicate Admits(s: State, rec: Record)
  {
    && rec.txId !in s.transactions
    && rec.amount.Some?
    && rec.amount.value >= 0.0
    && !IsLocked(s, rec.client)
  }

  function Handle(s: State, rec: Record): (r: Step)
    // Error precedence: duplicate id, then missing amount, then negative amount, then locked account.
    ensures rec.txId in s.transactions ==> r.error == Some(DuplicateTransaction(rec.txId))
    ensures rec.txId !in s.transactions && rec.amount.None? ==>
              r.error == Some(MissingAmount(rec.kind, rec.txId))
    ensures rec.txId !in s.transactions && rec.amount.Some? && rec.amount.value < 0.0 ==>
              r.error == Some(MustBePositive(rec.kind, rec.txId, rec.amount.value))
    ensures rec.txId !in s.transactions && rec.amount.Some? && rec.amount.value >= 0.0 && IsLocked(s, rec.client) ==>
              r.error == Some(AccountLocked(rec.client))
    ensures r.error.None? <==> Admits(s, rec)
    // A rejected deposit changes nothing; in particular it creates no account.
    ensures r.error.Some? ==> r.state == s
    // An accepted deposit raises available and total by the amount, on an unlocked
    // account filed under the record's client; an existing account keeps its client
    // field, and a new one carries the record's client ...
    ensures r.error.None? ==>
              && rec.client in r.state.accounts
              && var a := r.state.accounts[rec.client];
              && a.available == Available(s, rec.client) + rec.amount.value
              && a.held == Held(s, rec.client)
              && a.total == Total(s, rec.client) + rec.amount.value
              && !a.locked
              && a.client == (if rec.client in s.accounts then s.accounts[rec.client].client else rec.client)
    // ... leaves every other client's account as it was ...
    ensures r.error.None? ==> r.state.accounts - {rec.client} == s.accounts - {rec.client}
    // ... and stores exactly one new entry, under the record's id, in status Valid.
    ensures r.error.None? ==>
              r.state.transactions == s.transactions[rec.txId := Entry(rec.kind, rec.client, rec.txId, rec.amount, Valid)]
    ensures WellFormed(s) && rec.kind == Deposit ==> WellFormed(r.state)
  {
    match CheckDuplicate(rec, s.transactions)
    case Fail(e) => Rejected(s, e)
    case Pass =>
      match rec.amount
      case None => Rejected(s, MissingAmount(rec.kind, rec.txId))
      case Some(amount) =>
        match CheckPositive(rec, amount)
        case Fail(e) => Rejected(s, e)
        case Pass =>
          // The account is fetched, or created and filed, before the lock check.
          var account := if rec.client in s.accounts then s.accounts[rec.client] else NewAccount(rec.client);
          var filed := s.accounts[rec.client := account];
          match CheckLocked(rec, account)
          case Fail(e) =>
            // Only an existing account can be locked, so filing it changed nothing.
            assert filed == s.accounts;
            Rejected(s.(accounts := filed), e)
          case Pass =>
            var credited := account.(available := account.available + amount, total := account.total + amount);
            Accepted(State(filed[rec.client := credited], s.transactions[rec.txId := EntryOf(rec)]))
  }
}
