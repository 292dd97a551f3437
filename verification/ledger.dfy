/** The ledger's data model: identifiers, input records, client accounts, stored
    transaction entries, the two-table state and the transaction-level errors. */
module Ledger {
  import opened Wrappers

  /** Client identifiers are unsigned 16-bit integers. */
  type ClientId = x: int | 0 <= x < 0x1_0000

  /** Transaction identifiers are unsigned 32-bit integers. */
  type TxId = x: int | 0 <= x < 0x1_0000_0000

  /** Monetary amounts, as exact reals (the implementation uses single-precision floats). */
  type Amount = real

  datatype TxType = Deposit | Withdrawal | Dispute | Resolve | Chargeback

  /** Dispute lifecycle of a stored deposit or withdrawal. */
  datatype TxStatus = Valid | Disputed | Chargeback

  /** The status every freshly stored entry starts with (the enum's default variant). */
  const InitialStatus: TxStatus := Valid

  /** One input record of the transaction stream. */
  datatype Record = Record(kind: TxType, client: ClientId, txId: TxId, amount: Option<Amount>)

  /** A client's balances. `total` is meant to equal `available + held`; see `WellFormed`. */
  datatype Account = Account(client: ClientId, available: Amount, held: Amount, total: Amount, locked: bool)

  /** A stored transaction: the record it came from plus its dispute status. */
  datatype Entry = Entry(kind: TxType, client: ClientId, txId: TxId, amount: Option<Amount>, status: TxStatus)

  /** The two coupled tables owned by the engine. */
  datatype State = State(accounts: map<ClientId, Account>, transactions: map<TxId, Entry>)

  /** Transaction-level errors, with the payload each variant carries. */
  datatype TxError =
    | MustBePositive(txType: TxType, id: TxId, amount: Amount)
    | BalanceInsufficient(available: Amount, txType: TxType, id: TxId, amount: Amount)
    | AccountLocked(clientId: ClientId)
    | NotFound(txType: TxType, id: TxId)
    | AccountNotFound(clientId: ClientId)
    | ClientIdMismatch(expected: ClientId, actual: ClientId)
    | DuplicateTransaction(id: TxId)
    | MissingAmount(txType: TxType, id: TxId)
    | IncorrectState(txType: TxType, state: TxStatus, id: TxId)

  /** What a handler leaves behind: the state after the call (a handler mutates the
      state in place, so a rejection may in principle follow a partial update) and
      the error it returned, if any. */
  datatype Step = Step(state: State, error: Option<TxError>)

  /** The state a run starts from. */
  const Empty: State := State(map[], map[])

  function Accepted(s: State): Step
  {
    Step(s, None)
  }

  function Rejected(s: State, e: TxError): Step
  {
    Step(s, Some(e))
  }

  /** The account a first deposit creates: zero balances, unlocked. */
  function NewAccount(c: ClientId): Account
  {
    Account(c, 0.0, 0.0, 0.0, false)
  }

  /** The entry a deposit or withdrawal record is stored as. */
  function EntryOf(rec: Record): Entry
  {
    Entry(rec.kind, rec.client, rec.txId, rec.amount, InitialStatus)
  }

  /** True when the record's transaction id names a stored deposit: the lookup that
      disputes and chargebacks start with (a stored withdrawal does not qualify). */
  predicate RefersToDeposit(s: State, rec: Record)
  {
    rec.txId in s.transactions && s.transactions[rec.txId].kind == Deposit
  }

  predicate IsLocked(s: State, c: ClientId)
  {
    c in s.accounts && s.accounts[c].locked
  }

  /** Balances as reported for a client; a client without an account reads as zero. */
  function Available(s: State, c: ClientId): Amount
  {
    if c in s.accounts then s.accounts[c].available else 0.0
  }

  function Held(s: State, c: ClientId): Amount
  {
    if c in s.accounts then s.accounts[c].held else 0.0
  }

  function Total(s: State, c: ClientId): Amount
  {
    if c in s.accounts then s.accounts[c].total else 0.0
  }

  /** An account filed under key `c` is c's account, its total is the sum of the
      two other balances, and neither held nor total funds are negative. */
  predicate AccountWellFormed(c: ClientId, a: Account)
  {
    && a.client == c
    && a.total == a.available + a.held
    && a.held >= 0.0
    && a.total >= 0.0
  }

  /** An entry filed under key `t` has id `t`, is a deposit or withdrawal with a
      present non-negative amount, belongs to a client that has an account, and a
      withdrawal is never taken out of `Valid`. */
  predicate EntryWellFormed(t: TxId, e: Entry, accounts: map<ClientId, Account>)
  {
    && e.txId == t
    && (e.kind == Deposit || e.kind == Withdrawal)
    && e.amount.Some?
    && e.amount.value >= 0.0
    && e.client in accounts
    && (e.kind == Withdrawal ==> e.status == Valid)
  }

  /** The invariant every state reachable from `Empty` keeps. */
  predicate WellFormed(s: State)
  {
    && (forall c :: c in s.accounts ==> AccountWellFormed(c, s.accounts[c]))
    && (forall t :: t in s.transactions ==> EntryWellFormed(t, s.transactions[t], s.accounts))
  }
}
