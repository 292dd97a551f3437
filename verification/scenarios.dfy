/** Concrete runs from the empty ledger, following the implementation's unit tests.
    None of them contains a resolve record, so the resolve handler is arbitrary. */
module Scenarios {
  import opened Wrappers
  import opened Ledger
  import opened Engine
  import DepositHandler
  import WithdrawalHandler

  function DepositOf(client: ClientId, txId: TxId, amount: Amount): Item
  {
    Parsed(Record(Deposit, client, txId, Some(amount)))
  }

  function WithdrawalOf(client: ClientId, txId: TxId, amount: Amount): Item
  {
    Parsed(Record(Withdrawal, client, txId, Some(amount)))
  }

  function DisputeOf(client: ClientId, txId: TxId): Item
  {
    Parsed(Record(Dispute, client, txId, None))
  }

  function ChargebackOf(client: ClientId, txId: TxId): Item
  {
    Parsed(Record(TxType.Chargeback, client, txId, None))
  }

  /** Processing a parsed record and then the rest of the stream. */
  lemma RunCons(s: State, rec: Record, rest: seq<Item>, resolve: ResolveStep)
    ensures Run(s, [Parsed(rec)] + rest, resolve)
            == Resume(Logged(Dispatch(s, rec, resolve)), 1, Run(Dispatch(s, rec, resolve).state, rest, resolve))
  {
    assert ([Parsed(rec)] + rest)[1..] == rest;
  }

  /** Two deposits to one client add up in available and total. */
  lemma TwoDeposits(resolve: ResolveStep)
    ensures var r := Run(Empty, [DepositOf(1, 1, 100.0), DepositOf(1, 2, 50.0)], resolve);
            && r.Finished?
            && r.rejected == []
            && 1 in r.state.accounts && r.state.accounts[1] == Account(1, 150.0, 0.0, 150.0, false)
            && 1 in r.state.transactions && r.state.transactions[1] == Entry(Deposit, 1, 1, Some(100.0), Valid)
  {
  }

  /** Deposits to two clients land in two separate accounts. */
  lemma DepositsToTwoClients(resolve: ResolveStep)
    ensures var r := Run(Empty, [DepositOf(1, 1, 100.0), DepositOf(2, 2, 200.0)], resolve);
            && r.Finished?
            && r.rejected == []
            && 1 in r.state.accounts && r.state.accounts[1] == Account(1, 100.0, 0.0, 100.0, false)
            && 2 in r.state.accounts && r.state.accounts[2] == Account(2, 200.0, 0.0, 200.0, false)
            && 2 in r.state.transactions && r.state.transactions[2] == Entry(Deposit, 2, 2, Some(200.0), Valid)
  {
  }

  /** A covered withdrawal debits available and total and is stored. */
  lemma DepositThenWithdraw(resolve: ResolveStep)
    ensures var r := Run(Empty, [DepositOf(1, 1, 100.0), WithdrawalOf(1, 2, 50.0)], resolve);
            && r.Finished?
            && r.rejected == []
            && 1 in r.state.accounts && r.state.accounts[1] == Account(1, 50.0, 0.0, 50.0, false)
            && 2 in r.state.transactions && r.state.transactions[2] == Entry(Withdrawal, 1, 2, Some(50.0), Valid)
  {
  }

  /** Overdrawing is refused, reporting the available funds, and the balances stay. */
  lemma Overdraw(resolve: ResolveStep)
    ensures var r := Run(Empty, [DepositOf(1, 1, 100.0), WithdrawalOf(1, 2, 101.0)], resolve);
            && r.Finished?
            && r.rejected == [BalanceInsufficient(100.0, Withdrawal, 2, 101.0)]
            && 1 in r.state.accounts && r.state.accounts[1] == Account(1, 100.0, 0.0, 100.0, false)
            && 2 !in r.state.transactions
  {
  }

  /** A withdrawal for a client without an account is refused and creates none. */
  lemma WithdrawFromUnknownClient(resolve: ResolveStep)
    ensures var r := Run(Empty, [WithdrawalOf(1, 1, 100.0)], resolve);
            && r.Finished?
            && r.rejected == [AccountNotFound(1)]
            && r.state == Empty
  {
  }

  /** Reusing a transaction id is refused and the balances stay. */
  lemma DuplicateDeposit(resolve: ResolveStep)
    ensures var r := Run(Empty, [DepositOf(1, 1, 100.0), DepositOf(1, 1, 100.0)], resolve);
            && r.Finished?
            && r.rejected == [DuplicateTransaction(1)]
            && 1 in r.state.accounts && r.state.accounts[1] == Account(1, 100.0, 0.0, 100.0, false)
  {
  }

  /** A negative deposit is refused before any account is created. */
  lemma NegativeDeposit(resolve: ResolveStep)
    ensures var r := Run(Empty, [DepositOf(1, 1, -100.0)], resolve);
            && r.Finished?
            && r.rejected == [MustBePositive(Deposit, 1, -100.0)]
            && r.state == Empty
  {
  }

  /** A deposit without an amount is refused before any account is created. */
  lemma DepositWithoutAmount(resolve: ResolveStep)
    ensures var r := Run(Empty, [Parsed(Record(Deposit, 1, 1, None))], resolve);
            && r.Finished?
            && r.rejected == [MissingAmount(Deposit, 1)]
            && r.state == Empty
  {
  }

  /** A negative withdrawal is refused and the balances stay. */
  lemma NegativeWithdrawal(resolve: ResolveStep)
    ensures var r := Run(Empty, [DepositOf(1, 1, 100.0), WithdrawalOf(1, 2, -50.0)], resolve);
            && r.Finished?
            && r.rejected == [MustBePositive(Withdrawal, 2, -50.0)]
            && 1 in r.state.accounts && r.state.accounts[1] == Account(1, 100.0, 0.0, 100.0, false)
            && 2 !in r.state.transactions
  {
  }

  /** A withdrawal without an amount is refused and the balances stay. */
  lemma WithdrawalWithoutAmount(resolve: ResolveStep)
    ensures var r := Run(Empty, [DepositOf(1, 1, 100.0), Parsed(Record(Withdrawal, 1, 2, None))], resolve);
            && r.Finished?
            && r.rejected == [MissingAmount(Withdrawal, 2)]
            && 1 in r.state.accounts && r.state.accounts[1] == Account(1, 100.0, 0.0, 100.0, false)
            && 2 !in r.state.transactions
  {
  }

  /** Disputing an unknown transaction id is refused as not found. */
  lemma DisputeOfUnknownId(resolve: ResolveStep)
    ensures var r := Run(Empty, [DisputeOf(1, 1)], resolve);
            && r.Finished?
            && r.rejected == [NotFound(Dispute, 1)]
            && r.state == Empty
  {
  }

  /** Charging back an unknown transaction id is refused as not found. */
  lemma ChargebackOfUnknownId(resolve: ResolveStep)
    ensures var r := Run(Empty, [ChargebackOf(1, 1)], resolve);
            && r.Finished?
            && r.rejected == [NotFound(TxType.Chargeback, 1)]
            && r.state == Empty
  {
  }

  // The records and intermediate states of the dispute and chargeback scenarios.

  const D1 := Record(Deposit, 1, 1, Some(100.0))
  const D2 := Record(Deposit, 1, 2, Some(50.0))
  const W2 := Record(Withdrawal, 1, 2, Some(50.0))
  const D3 := Record(Deposit, 1, 3, Some(50.0))
  const P1 := Record(Dispute, 1, 1, None)
  const C1 := Record(TxType.Chargeback, 1, 1, None)

  /** After depositing 100 under id 1. */
  const AfterD1 := State(map[1 := Account(1, 100.0, 0.0, 100.0, false)], map[1 := EntryOf(D1)])

  // Step lemmas: what one record does to one of the states above. The deposit steps
  // go through two smaller facts each, what the handler's body builds and how those
  // map updates simplify, so that each solver query stays small.

  /** From the empty ledger, deposit D1 files a fresh account for client 1 and then
      credits it. */
  lemma FirstDepositFilesAndCredits()
    ensures DepositHandler.Handle(Empty, D1)
            == Accepted(State(Empty.accounts[1 := NewAccount(1)][1 := Account(1, 100.0, 0.0, 100.0, false)],
                              Empty.transactions[1 := EntryOf(D1)]))
  {
  }

  /** Filing a fresh account and then crediting it with 100 gives `AfterD1`. */
  lemma FiledThenCreditedIsAfterD1()
    ensures State(Empty.accounts[1 := NewAccount(1)][1 := Account(1, 100.0, 0.0, 100.0, false)],
                  Empty.transactions[1 := EntryOf(D1)])
            == AfterD1
  {
  }

  /** On `AfterD1`, deposit D2 refiles client 1's account unchanged and then credits it. */
  lemma SecondDepositRefilesAndCredits()
    ensures DepositHandler.Handle(AfterD1, D2)
            == Accepted(State(AfterD1.accounts[1 := AfterD1.accounts[1]][1 := Account(1, 150.0, 0.0, 150.0, false)],
                              AfterD1.transactions[2 := EntryOf(D2)]))
  {
  }

  /** Refiling an account unchanged and then replacing it is just replacing it. */
  lemma RefiledThenCreditedIsReplaced()
    ensures AfterD1.accounts[1 := AfterD1.accounts[1]][1 := Account(1, 150.0, 0.0, 150.0, false)]
            == AfterD1.accounts[1 := Account(1, 150.0, 0.0, 150.0, false)]
  {
  }

  lemma StepD1(resolve: ResolveStep)
    ensures Dispatch(Empty, D1, resolve) == Accepted(AfterD1)
  {
    FirstDepositFilesAndCredits();
    FiledThenCreditedIsAfterD1();
  }

  lemma StepD2(resolve: ResolveStep)
    ensures Dispatch(AfterD1, D2, resolve)
            == Accepted(State(AfterD1.accounts[1 := Account(1, 150.0, 0.0, 150.0, false)], AfterD1.transactions[2 := EntryOf(D2)]))
  {
    SecondDepositRefilesAndCredits();
    RefiledThenCreditedIsReplaced();
  }

  lemma StepW2(resolve: ResolveStep)
    ensures Dispatch(AfterD1, W2, resolve)
            == Accepted(State(AfterD1.accounts[1 := Account(1, 50.0, 0.0, 50.0, false)], AfterD1.transactions[2 := EntryOf(W2)]))
  {
    assert WithdrawalHandler.Handle(AfterD1, W2)
           == Accepted(State(AfterD1.accounts[1 := Account(1, 50.0, 0.0, 50.0, false)], AfterD1.transactions[2 := EntryOf(W2)]));
  }

  lemma StepP1(resolve: ResolveStep, s: State, available: Amount, held: Amount, total: Amount)
    requires 1 in s.accounts && s.accounts[1] == Account(1, available, held, total, false)
    requires 1 in s.transactions && s.transactions[1] == EntryOf(D1)
    ensures Dispatch(s, P1, resolve)
            == Accepted(State(s.accounts[1 := Account(1, available - 100.0, held + 100.0, total, false)],
                              s.transactions[1 := EntryOf(D1).(status := Disputed)]))
  {
  }

  lemma StepC1(resolve: ResolveStep, s: State, available: Amount, held: Amount, total: Amount)
    requires 1 in s.accounts && s.accounts[1] == Account(1, available, held, total, false)
    requires 1 in s.transactions && s.transactions[1] == EntryOf(D1).(status := Disputed)
    ensures var charged := s.transactions[1 := EntryOf(D1).(status := TxStatus.Chargeback)];
            Dispatch(s, C1, resolve)
            == if available < 0.0 then
                 Rejected(s.(transactions := charged), BalanceInsufficient(available + 100.0, TxType.Chargeback, 1, 100.0))
               else if held < 100.0 then
                 Rejected(s.(transactions := charged), BalanceInsufficient(held, TxType.Chargeback, 1, 100.0))
               else
                 Accepted(State(s.accounts[1 := Account(1, available, held - 100.0, total - 100.0, true)], charged))
  {
  }

  lemma StepC1Undisputed(resolve: ResolveStep, s: State)
    requires 1 in s.transactions && s.transactions[1] == EntryOf(D1)
    ensures Dispatch(s, C1, resolve) == Rejected(s, IncorrectState(TxType.Chargeback, Valid, 1))
  {
  }

  lemma StepLocked(resolve: ResolveStep, s: State)
    requires IsLocked(s, 1) && 3 !in s.transactions
    ensures Dispatch(s, D3, resolve) == Rejected(s, AccountLocked(1))
  {
  }

  /** A dispute from another client than the deposit's is refused. */
  lemma DisputeByOtherClient(resolve: ResolveStep)
    ensures var r := Run(Empty, [DepositOf(1, 1, 100.0), DisputeOf(2, 1)], resolve);
            && r.Finished?
            && r.rejected == [ClientIdMismatch(1, 2)]
            && 1 in r.state.accounts && r.state.accounts[1] == Account(1, 100.0, 0.0, 100.0, false)
            && 1 in r.state.transactions && r.state.transactions[1].status == Valid
  {
    var p := Record(Dispute, 2, 1, None);
    assert Dispatch(AfterD1, p, resolve) == Rejected(AfterD1, ClientIdMismatch(1, 2));
    assert Run(Empty, [Parsed(D1), Parsed(p)], resolve) == Resume([], 1, Run(AfterD1, [Parsed(p)], resolve)) by {
      StepD1(resolve);
      RunCons(Empty, D1, [Parsed(p)], resolve);
    }
    RunCons(AfterD1, p, [], resolve);
  }

  /** A dispute holds the deposit's amount: available drops, held rises, total stays. */
  lemma DisputeHoldsFunds(resolve: ResolveStep)
    ensures var r := Run(Empty, [DepositOf(1, 1, 100.0), DepositOf(1, 2, 50.0), DisputeOf(1, 1)], resolve);
            && r.Finished?
            && r.rejected == []
            && 1 in r.state.accounts && r.state.accounts[1] == Account(1, 50.0, 100.0, 150.0, false)
            && 1 in r.state.transactions && r.state.transactions[1].status == Disputed
  {
    var s2 := State(AfterD1.accounts[1 := Account(1, 150.0, 0.0, 150.0, false)], AfterD1.transactions[2 := EntryOf(D2)]);
    var last := Run(s2, [Parsed(P1)], resolve);
    assert && last.Finished? && last.rejected == []
           && 1 in last.state.accounts && last.state.accounts[1] == Account(1, 50.0, 100.0, 150.0, false)
           && 1 in last.state.transactions && last.state.transactions[1].status == Disputed by {
      StepP1(resolve, s2, 150.0, 0.0, 150.0);
      RunCons(s2, P1, [], resolve);
    }
    assert Run(Empty, [Parsed(D1), Parsed(D2), Parsed(P1)], resolve) == Resume([], 1, Resume([], 1, last)) by {
      StepD1(resolve);
      StepD2(resolve);
      RunCons(AfterD1, D2, [Parsed(P1)], resolve);
      RunCons(Empty, D1, [Parsed(D2), Parsed(P1)], resolve);
    }
  }

  /** A withdrawal cannot be disputed: the lookup reports it as not found. */
  lemma DisputeOfWithdrawal(resolve: ResolveStep)
    ensures var r := Run(Empty, [DepositOf(1, 1, 100.0), WithdrawalOf(1, 2, 50.0), DisputeOf(1, 2)], resolve);
            && r.Finished?
            && r.rejected == [NotFound(Dispute, 2)]
            && 1 in r.state.accounts && r.state.accounts[1] == Account(1, 50.0, 0.0, 50.0, false)
  {
    var p := Record(Dispute, 1, 2, None);
    var s2 := State(AfterD1.accounts[1 := Account(1, 50.0, 0.0, 50.0, false)], AfterD1.transactions[2 := EntryOf(W2)]);
    var last := Run(s2, [Parsed(p)], resolve);
    assert last == Finished(s2, [NotFound(Dispute, 2)]) by {
      assert Dispatch(s2, p, resolve) == Rejected(s2, NotFound(Dispute, 2));
      RunCons(s2, p, [], resolve);
    }
    assert Run(Empty, [Parsed(D1), Parsed(W2), Parsed(p)], resolve) == Resume([], 1, Resume([], 1, last)) by {
      StepD1(resolve);
      StepW2(resolve);
      RunCons(AfterD1, W2, [Parsed(p)], resolve);
      RunCons(Empty, D1, [Parsed(W2), Parsed(p)], resolve);
    }
  }

  /** A chargeback of an undisputed deposit is refused in its current state. */
  lemma ChargebackWithoutDispute(resolve: ResolveStep)
    ensures var r := Run(Empty, [DepositOf(1, 1, 100.0), ChargebackOf(1, 1)], resolve);
            && r.Finished?
            && r.rejected == [IncorrectState(TxType.Chargeback, Valid, 1)]
            && 1 in r.state.accounts && r.state.accounts[1] == Account(1, 100.0, 0.0, 100.0, false)
  {
    StepD1(resolve);
    StepC1Undisputed(resolve, AfterD1);
    RunCons(AfterD1, C1, [], resolve);
    RunCons(Empty, D1, [Parsed(C1)], resolve);
  }

  /** A chargeback removes the held amount from held and total and locks the account. */
  lemma ChargebackLocks(resolve: ResolveStep)
    ensures var r := Run(Empty, [DepositOf(1, 1, 100.0), DepositOf(1, 2, 50.0), DisputeOf(1, 1), ChargebackOf(1, 1)], resolve);
            && r.Finished?
            && r.rejected == []
            && 1 in r.state.accounts && r.state.accounts[1] == Account(1, 50.0, 0.0, 50.0, true)
            && 1 in r.state.transactions && r.state.transactions[1].status == TxStatus.Chargeback
  {
    StepD1(resolve);
    StepD2(resolve);
    var s2 := Dispatch(AfterD1, D2, resolve).state;
    StepP1(resolve, s2, 150.0, 0.0, 150.0);
    var s3 := Dispatch(s2, P1, resolve).state;
    StepC1(resolve, s3, 50.0, 100.0, 150.0);
    RunCons(s3, C1, [], resolve);
    RunCons(s2, P1, [Parsed(C1)], resolve);
    RunCons(AfterD1, D2, [Parsed(P1), Parsed(C1)], resolve);
    RunCons(Empty, D1, [Parsed(D2), Parsed(P1), Parsed(C1)], resolve);
  }

  /** Disputing after a withdrawal puts the account in arrears; the chargeback that
      follows is refused, reporting available plus the amount, with the balances
      unchanged, yet the deposit is left marked Chargeback. */
  lemma ChargebackInArrears(resolve: ResolveStep)
    ensures var r := Run(Empty, [DepositOf(1, 1, 100.0), WithdrawalOf(1, 2, 50.0), DisputeOf(1, 1), ChargebackOf(1, 1)], resolve);
            && r.Finished?
            && r.rejected == [BalanceInsufficient(50.0, TxType.Chargeback, 1, 100.0)]
            && 1 in r.state.accounts && r.state.accounts[1] == Account(1, -50.0, 100.0, 50.0, false)
            && 1 in r.state.transactions && r.state.transactions[1].status == TxStatus.Chargeback
  {
    StepD1(resolve);
    StepW2(resolve);
    var s2 := Dispatch(AfterD1, W2, resolve).state;
    StepP1(resolve, s2, 50.0, 0.0, 50.0);
    var s3 := Dispatch(s2, P1, resolve).state;
    StepC1(resolve, s3, -50.0, 100.0, 50.0);
    RunCons(s3, C1, [], resolve);
    RunCons(s2, P1, [Parsed(C1)], resolve);
    RunCons(AfterD1, W2, [Parsed(P1), Parsed(C1)], resolve);
    RunCons(Empty, D1, [Parsed(W2), Parsed(P1), Parsed(C1)], resolve);
  }

  /** Proof step of `DepositAfterChargeback`, from any state holding a disputed
      deposit of 100 with nothing else held: charge it back, then try to deposit
      again. */
  lemma ChargebackThenDeposit(resolve: ResolveStep, s: State)
    requires 1 in s.accounts && s.accounts[1] == Account(1, 0.0, 100.0, 100.0, false)
    requires 1 in s.transactions && s.transactions[1] == EntryOf(D1).(status := Disputed)
    requires 3 !in s.transactions
    ensures var r := Run(s, [Parsed(C1), Parsed(D3)], resolve);
            && r.Finished?
            && r.rejected == [AccountLocked(1)]
            && 1 in r.state.accounts && r.state.accounts[1] == Account(1, 0.0, 0.0, 0.0, true)
            && 3 !in r.state.transactions
  {
    StepC1(resolve, s, 0.0, 100.0, 100.0);
    var s3 := Dispatch(s, C1, resolve).state;
    StepLocked(resolve, s3);
    RunCons(s3, D3, [], resolve);
    RunCons(s, C1, [Parsed(D3)], resolve);
  }

  /** Proof step of `DepositAfterChargeback`, from any state holding an undisputed
      deposit of 100 with nothing else held: dispute it, charge it back, then try to
      deposit again. */
  lemma DisputeThenDeposit(resolve: ResolveStep, s: State)
    requires 1 in s.accounts && s.accounts[1] == Account(1, 100.0, 0.0, 100.0, false)
    requires 1 in s.transactions && s.transactions[1] == EntryOf(D1)
    requires 3 !in s.transactions
    ensures var r := Run(s, [Parsed(P1), Parsed(C1), Parsed(D3)], resolve);
            && r.Finished?
            && r.rejected == [AccountLocked(1)]
            && 1 in r.state.accounts && r.state.accounts[1] == Account(1, 0.0, 0.0, 0.0, true)
            && 3 !in r.state.transactions
  {
    StepP1(resolve, s, 100.0, 0.0, 100.0);
    var s2 := Dispatch(s, P1, resolve).state;
    ChargebackThenDeposit(resolve, s2);
    RunCons(s, P1, [Parsed(C1), Parsed(D3)], resolve);
  }

  /** After a chargeback the account is locked at zero, and a new deposit is refused. */
  lemma DepositAfterChargeback(resolve: ResolveStep)
    ensures var r := Run(Empty, [Parsed(D1), Parsed(P1), Parsed(C1), Parsed(D3)], resolve);
            && r.Finished?
            && r.rejected == [AccountLocked(1)]
            && 1 in r.state.accounts && r.state.accounts[1] == Account(1, 0.0, 0.0, 0.0, true)
            && 3 !in r.state.transactions
  {
    var tail := Run(AfterD1, [Parsed(P1), Parsed(C1), Parsed(D3)], resolve);
    assert tail.Finished? && tail.rejected == [AccountLocked(1)]
           && 1 in tail.state.accounts && tail.state.accounts[1] == Account(1, 0.0, 0.0, 0.0, true)
           && 3 !in tail.state.transactions by {
      DisputeThenDeposit(resolve, AfterD1);
    }
    assert Run(Empty, [Parsed(D1), Parsed(P1), Parsed(C1), Parsed(D3)], resolve) == Resume([], 1, tail) by {
      StepD1(resolve);
      RunCons(Empty, D1, [Parsed(P1), Parsed(C1), Parsed(D3)], resolve);
    }
  }

  /** A malformed record ends the run at its position, whatever follows it; the
      rejection reported before it stays reported. */
  lemma MalformedStops(resolve: ResolveStep, rest: seq<Item>)
    ensures Run(Empty, [WithdrawalOf(1, 1, 100.0), Malformed] + rest, resolve)
            == ParseFailed(1, [AccountNotFound(1)])
  {
    var w := Record(Withdrawal, 1, 1, Some(100.0));
    assert [WithdrawalOf(1, 1, 100.0), Malformed] + rest == [Parsed(w)] + ([Malformed] + rest);
    assert Dispatch(Empty, w, resolve) == Rejected(Empty, AccountNotFound(1));
    RunCons(Empty, w, [Malformed] + rest, resolve);
  }
}
