# Ledger engine model

A Dafny model of the transaction engine in the `txn-application` payments
processor. The engine reads a stream of client transactions (deposit,
withdrawal, dispute, resolve, chargeback) and keeps two coupled tables:

- client accounts, each with `available`, `held` and `total` funds and a `locked` flag;
- stored transactions, one per deposit or withdrawal, each with a dispute status
  (`Valid`, `Disputed`, `Chargeback`).

Each record goes to the handler for its kind. A handler either updates the tables
or returns a transaction error. The engine skips a rejected record and goes on
with the state the handler left. A record the stream cannot parse ends the run.

## Layout

- `wrappers.dfy` (`Wrappers`): `Option` and the pass/fail `Outcome` of a check.
- `ledger.dfy` (`Ledger`): the data model and the `WellFormed` invariant.
  - Identifiers: client ids below 2^16 and transaction ids below 2^32.
  - `Record`, `Account`, `Entry` and `State` (the two maps).
  - `TxError`, with each variant's payload.
  - `Step`: the state a handler leaves together with the error it returned.
- `checks.dfy` (`Checks`): the five shared validation checks.
- `deposit.dfy`, `withdrawal.dfy`, `dispute.dfy`, `chargeback.dfy`: one module per
  handler. Each has a pure `Handle(s, rec)` and a predicate `Admits` that says
  independently when the handler accepts.
- `engine.dfy` (`Engine`): `Dispatch` and the run over the stream.
  - `Run` is the recursive definition.
  - `Process` is the loop the implementation writes, proved equal to `Run`.
- `properties.dfy` (`RunProperties`): invariants of whole runs, the log a run
  stopped by a malformed record keeps, and the deposit/withdrawal round trip.
- `scenarios.dfy` (`Scenarios`): the implementation's unit tests, restated as runs
  from the empty ledger.

### The chargeback quirk

The chargeback handler writes status `Chargeback` on the disputed deposit before
it checks the balances. When it then refuses the chargeback with
`BalanceInsufficient`, the balances are unchanged but the deposit stays marked
`Chargeback`. The model keeps this behaviour:

- `ChargebackHandler.Handle` returns `MarkCharged(s, txId)` on those two paths.
- `Engine.Dispatch` states that every other rejection leaves the state unchanged.
- `RunProperties.RunKeepsChargebacks` shows that the `Chargeback` status persists
  through any run whose resolve handler keeps it (`ResolveKeepsChargebacks`).
  The dispute and chargeback `Handle` contracts refuse a deposit in that status
  with `IncorrectState`, so such a deposit is never disputed or charged back again.

## Model

| member | source | states |
|---|---|---|
| Checks.CheckPositive | src/model.rs:86-96 | fails iff the amount is below zero (zero passes), with `MustBePositive` carrying the record's kind, id and the amount |
| Checks.CheckSufficientBalance | src/model.rs:97-112 | passes iff the balance covers the amount; the error's `available` field is the balance that was examined |
| Checks.CheckClientId | src/model.rs:113-122 | fails iff the stored client differs from the record's, with `expected` the stored id and `actual` the record's |
| Checks.CheckDuplicate | src/model.rs:123-132 | fails with `DuplicateTransaction` iff the record's id is already a key of the transactions table |
| Checks.CheckLocked | src/model.rs:133-141 | fails iff the account is locked, naming the record's client |
| DepositHandler.Handle | src/model/deposit.rs:48-76 | error precedence duplicate, missing amount, negative amount, locked account; accepts iff `Admits`; a rejection changes nothing, so no account is created; on success `available` and `total` rise by the amount, `held` is kept, a new account starts at zero and carries the record's client id while an existing one keeps its client field, other clients are untouched, one `Valid` entry is inserted under the record's id; well-formedness is preserved |
| WithdrawalHandler.Handle | src/model/withdrawal.rs:49-77 | error precedence duplicate, missing amount, negative amount, unknown account, locked account, insufficient available funds; accepts iff `Admits`; never creates an account; a rejection changes nothing; on success `available` (left non-negative) and `total` drop by the amount, `held`, `locked` and the client field are kept, one `Valid` entry is inserted; well-formedness is preserved |
| DisputeHandler.Handle | src/model/dispute.rs:49-93 | `NotFound` iff the id is not a stored deposit; then, in order, `IncorrectState` unless `Valid`, `ClientIdMismatch`, `AccountNotFound`, `AccountLocked`, `MissingAmount`; accepts iff `Admits`; a rejection changes nothing; on success the status becomes `Disputed` and the amount moves from available to held, `total`, `locked` and the client field kept, with no funds check, so available may go negative; no entry is added; well-formedness is preserved |
| ChargebackHandler.Handle | src/model/chargeback.rs:49-104 | `NotFound` iff the id is not a stored deposit; then `IncorrectState` unless `Disputed`, `ClientIdMismatch`, `AccountNotFound`, `AccountLocked`, `MissingAmount`, all with no change; once those pass, the status is `Chargeback` whatever follows; arrears fail with `available + amount` reported, a held amount short of the deposit fails reporting `held`, and both leave the balances as they were; on success `held` and `total` drop by the amount, `available` and the client field are kept and the account is locked; well-formedness is preserved |
| Engine.Dispatch | src/main.rs:47-53 | for every non-resolve record: accounts and entries are never removed; only a deposit creates an account; entries change only in status, and only Valid to Disputed by a dispute or Disputed to Chargeback by a chargeback on its own id; locks are never lifted and only an accepted chargeback sets one; a locked client's records are all refused with no change; a rejection changes nothing except the chargeback quirk; well-formedness is preserved; a dispute or chargeback never meets a missing amount or a missing account |
| Engine.Run | src/main.rs:45-64 | the run fails to parse iff some item is malformed, and then at the first malformed item; at most one error is logged per record processed, so at most `index` errors are logged before the malformed item |
| RunProperties.ParseFailedKeepsPrefixLog | src/main.rs:45-63 | a run stopped by a malformed record has reported exactly the errors that running only the records before it reports |
| Engine.Process | src/main.rs:45-64 | the in-place loop, which carries one state and appends each rejection to a log, computes exactly `Run` |
| RunProperties.RunKeepsWellFormed | src/main.rs:45-64 | every finished run from a well-formed state ends well-formed: `total == available + held`, held and total are non-negative, every entry is a deposit or withdrawal with a present non-negative amount, and every withdrawal entry is `Valid` |
| RunProperties.ReachableIsWellFormed | src/main.rs:43-64 | every state reached from the empty ledger is well-formed |
| RunProperties.RunKeepsLocks | src/model/chargeback.rs:101 | a locked account stays present and locked through any run |
| RunProperties.RunKeepsChargebacks | src/model/chargeback.rs:84 | an entry in status `Chargeback` keeps that status through any run, including one marked by a refused chargeback |
| RunProperties.NetTotal | src/model/withdrawal.rs:69-70 | a run of deposits and withdrawals with no rejection moves each client's total by its deposits minus its withdrawals |
| RunProperties.WithdrawalUndoesDeposit | src/model/withdrawal.rs:59-70 | withdrawing what was just deposited restores the client's account, when the client is unlocked and its available funds are not negative |
| Scenarios.TwoDeposits | src/main.rs:113-148 | two deposits to one client add up to 150 available and total, with the first entry stored as a `Valid` deposit |
| Scenarios.DepositsToTwoClients | src/main.rs:150-189 | deposits to two clients land in two separate accounts |
| Scenarios.DepositThenWithdraw | src/main.rs:190-220 | deposit 100 and withdraw 50 leaves 50/0/50 and stores the withdrawal |
| Scenarios.Overdraw | src/main.rs:222-253 | withdrawing 101 from 100 is refused with `BalanceInsufficient(100, ...)` and leaves 100/0/100 |
| Scenarios.WithdrawFromUnknownClient | src/main.rs:255-275 | a withdrawal for an unknown client is refused with `AccountNotFound` and creates nothing |
| Scenarios.DuplicateDeposit | src/main.rs:277-309 | a reused transaction id is refused and the balance stays 100 |
| Scenarios.NegativeDeposit | src/main.rs:311-328 | a negative deposit is refused and creates no account |
| Scenarios.NegativeWithdrawal | src/main.rs:330-357 | a negative withdrawal is refused and the balances stay |
| Scenarios.DepositWithoutAmount | src/main.rs:359-376 | a deposit without amount is refused with `MissingAmount` and creates no account |
| Scenarios.WithdrawalWithoutAmount | src/main.rs:378-405 | a withdrawal without amount is refused and the balances stay |
| Scenarios.DisputeOfUnknownId | src/main.rs:407-421 | disputing an unknown id is refused with `NotFound` |
| Scenarios.DisputeByOtherClient | src/main.rs:423-450 | a dispute from another client is refused with `ClientIdMismatch(1, 2)` and the deposit stays `Valid` |
| Scenarios.DisputeHoldsFunds | src/main.rs:452-486 | a dispute moves 100 from available to held, giving 50/100/150, and marks the deposit `Disputed` |
| Scenarios.DisputeOfWithdrawal | src/main.rs:488-529 | disputing a withdrawal is refused with `NotFound` |
| Scenarios.ChargebackOfUnknownId | src/main.rs:577-591 | charging back an unknown id is refused with `NotFound` |
| Scenarios.ChargebackWithoutDispute | src/main.rs:593-625 | charging back an undisputed deposit is refused with `IncorrectState` and leaves 100/0/100 |
| Scenarios.ChargebackLocks | src/main.rs:627-675 | dispute then chargeback of 100 out of 150 leaves 50/0/50, locked, with the deposit marked `Chargeback` |
| Scenarios.ChargebackInArrears | src/main.rs:726-780 | after a withdrawal and a dispute the account is at -50/100/50; the chargeback is refused reporting 50, the balances stay, and the deposit is still marked `Chargeback` |
| Scenarios.DisputeThenDeposit | src/main.rs:863-906 | from any state holding an undisputed deposit of 100 with nothing else held: dispute, chargeback and a new deposit end at 0/0/0 locked, with only `AccountLocked(1)` logged and the new deposit not stored |
| Scenarios.ChargebackThenDeposit | src/main.rs:876-906 | from any state holding a disputed deposit of 100 with nothing else held: the chargeback leaves 0/0/0 locked and the following deposit is refused with `AccountLocked(1)` and not stored |
| Scenarios.DepositAfterChargeback | src/main.rs:851-906 | a chargeback leaves 0/0/0 locked, and a later deposit is refused with `AccountLocked` and not stored |
| Scenarios.MalformedStops | src/main.rs:45-63 | a withdrawal from an unknown client is refused with `AccountNotFound(1)`, then a malformed record ends the run at its position for every tail of items after it, and that rejection stays reported |

## Left out

- The resolve handler's source is not part of this model. `Dispatch` and `Run`
  take it as a function parameter. The run properties say what they assume of it
  (`ResolveKeepsWellFormed`, `ResolveKeepsLocks`, `ResolveKeepsChargebacks`). The
  unit tests that use resolve have no scenario.
- Engine.Dispatch: states nothing about resolve records, since their handler is a
  parameter.
- Amounts are exact reals. The implementation uses 32-bit floats, so rounding,
  NaN and infinities are not modelled.
- CSV parsing, whitespace trimming and deserialisation are library code. The
  stream is modelled as a sequence of items, each either a parsed record or
  `Malformed`.
- Engine.Run: on a malformed record the implementation returns the parse error
  and drops the state; the rejections met before it have already been printed
  when the run is verbose (`--verbose`), and silently skipped otherwise. The model
  returns the position and those rejections (`ParseFailed`), not the state or the
  parse error's contents. The log is what a verbose run prints; the flag itself is
  not modelled.
- File I/O, the async runtime, command-line parsing, the error printing (modelled
  as the list of rejections) and the final account dump with its decimal
  formatting are not modelled.
- The Display strings of the errors are not modelled. Neither are the
  file-level and parse-level error variants, nor the per-record `status` field of
  dispute and chargeback records, which no handler reads.
- RunProperties.NetTotal: is stated only for streams that contain deposits and
  withdrawals and are processed with no rejection. Disputes and chargebacks move
  funds between the balances by amounts that the stored entries determine, not
  the records.
