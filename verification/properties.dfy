/** Properties of whole runs, proved by induction over the record stream, and of a
    deposit followed by the withdrawal that undoes it. The resolve
    handler is a parameter, so each property that depends on it names what it
    assumes of resolve. */
module RunProperties {
  import opened Wrappers
  import opened Ledger
  import opened Engine

  /** Resolve keeps a well-formed state well-formed. */
  ghost predicate ResolveKeepsWellFormed(resolve: ResolveStep)
  {
    forall s: State, rec: Record :: WellFormed(s) ==> WellFormed(resolve(s, rec).state)
  }

  /** Resolve never lifts a lock. */
  ghost predicate ResolveKeepsLocks(resolve: ResolveStep)
  {
    forall s: State, rec: Record, c: ClientId :: IsLocked(s, c) ==> IsLocked(resolve(s, rec).state, c)
  }

  /** Resolve never removes an entry and never takes one out of status Chargeback. */
  ghost predicate ResolveKeepsChargebacks(resolve: ResolveStep)
  {
    forall s: State, rec: Record, t: TxId :: t in s.transactions && s.transactions[t].status == TxStatus.Chargeback ==>
      t in resolve(s, rec).state.transactions &&
      resolve(s, rec).state.transactions[t].status == TxStatus.Chargeback
  }

  /** Every run from a well-formed state that drains the stream ends well-formed:
      in particular `total == available + held` for every account, held and total
      funds are never negative, and every stored entry is a deposit or withdrawal
      with a present, non-negative amount. */
  lemma {:induction false} RunKeepsWellFormed(s: State, items: seq<Item>, resolve: ResolveStep)
    requires WellFormed(s)
    requires ResolveKeepsWellFormed(resolve)
    ensures Run(s, items, resolve).Finished? ==> WellFormed(Run(s, items, resolve).state)
    decreases |items|
  {
    if |items| > 0 && items[0].Parsed? {
      var step := Dispatch(s, items[0].rec, resolve);
      RunKeepsWellFormed(step.state, items[1..], resolve);
    }
  }

  /** The state every run from the empty ledger reaches is well-formed. */
  lemma ReachableIsWellFormed(items: seq<Item>, resolve: ResolveStep)
    requires ResolveKeepsWellFormed(resolve)
    ensures Run(Empty, items, resolve).Finished? ==> WellFormed(Run(Empty, items, resolve).state)
  {
    RunKeepsWellFormed(Empty, items, resolve);
  }

  /** Locking is irreversible: an account locked before a run is still there and
      still locked after it. */
  lemma {:induction false} RunKeepsLocks(s: State, items: seq<Item>, resolve: ResolveStep, c: ClientId)
    requires ResolveKeepsLocks(resolve)
    requires IsLocked(s, c)
    ensures Run(s, items, resolve).Finished? ==> IsLocked(Run(s, items, resolve).state, c)
    decreases |items|
  {
    if |items| > 0 && items[0].Parsed? {
      var step := Dispatch(s, items[0].rec, resolve);
      RunKeepsLocks(step.state, items[1..], resolve, c);
    }
  }

  /** Status Chargeback is terminal: once a deposit is marked Chargeback (by an
      accepted chargeback, or by one refused for want of funds), no later record
      changes that, so its held amount can never be released by a dispute or
      chargeback. */
  lemma {:induction false} RunKeepsChargebacks(s: State, items: seq<Item>, resolve: ResolveStep, t: TxId)
    requires ResolveKeepsChargebacks(resolve)
    requires t in s.transactions && s.transactions[t].status == TxStatus.Chargeback
    ensures var r := Run(s, items, resolve);
            r.Finished? ==> t in r.state.transactions && r.state.transactions[t].status == TxStatus.Chargeback
    decreases |items|
  {
    if |items| > 0 && items[0].Parsed? {
      var step := Dispatch(s, items[0].rec, resolve);
      RunKeepsChargebacks(step.state, items[1..], resolve, t);
    }
  }

  /** The signed amount the deposit and withdrawal records in `items` move for
      client `c`: deposits count positive, withdrawals negative. */
  function NetAmount(items: seq<Item>, c: ClientId): Amount
  {
    if |items| == 0 then 0.0
    else
      var head :=
        if items[0].Parsed? && items[0].rec.client == c && items[0].rec.amount.Some? then
          if items[0].rec.kind == Deposit then items[0].rec.amount.value
          else if items[0].rec.kind == Withdrawal then -items[0].rec.amount.value
          else 0.0
        else 0.0;
      head + NetAmount(items[1..], c)
  }

  /** A stream of deposits and withdrawals that is processed without a single
      rejection moves each client's total by exactly the sum of its deposits minus
      the sum of its withdrawals. */
  lemma {:induction false} NetTotal(s: State, items: seq<Item>, resolve: ResolveStep, c: ClientId)
    requires forall i :: 0 <= i < |items| ==>
               items[i].Parsed? && (items[i].rec.kind == Deposit || items[i].rec.kind == Withdrawal)
    requires Run(s, items, resolve).Finished? && Run(s, items, resolve).rejected == []
    ensures Total(Run(s, items, resolve).state, c) == Total(s, c) + NetAmount(items, c)
    decreases |items|
  {
    if |items| > 0 {
      var rec := items[0].rec;
      var step := Dispatch(s, rec, resolve);
      assert step.error.None?;
      assert Total(step.state, c) - Total(s, c) == NetAmount(items, c) - NetAmount(items[1..], c) by {
        if c != rec.client {
          // Every other client's account is left as it was.
          var others := {rec.client};
          assert step.state.accounts - others == s.accounts - others;
          if c in s.accounts {
            assert c in s.accounts - others;
            assert (s.accounts - others)[c] == s.accounts[c];
          }
          if c in step.state.accounts {
            assert c in step.state.accounts - others;
          }
        }
      }
      NetTotal(step.state, items[1..], resolve, c);
    }
  }

  /** Withdrawing what was just deposited gives the client its account back, as it
      was or, for a new client, as a fresh one; both records are stored. This needs
      the available funds to be non-negative beforehand: after a dispute has driven
      them below zero, the withdrawal is refused. */
  lemma WithdrawalUndoesDeposit(s: State, resolve: ResolveStep, c: ClientId, t1: TxId, t2: TxId, amount: Amount)
    requires !IsLocked(s, c) && Available(s, c) >= 0.0
    requires t1 != t2 && t1 !in s.transactions && t2 !in s.transactions
    requires amount >= 0.0
    ensures var first := Dispatch(s, Record(Deposit, c, t1, Some(amount)), resolve);
            var second := Dispatch(first.state, Record(Withdrawal, c, t2, Some(amount)), resolve);
            && first.error.None?
            && second.error.None?
            && second.state.accounts == s.accounts[c := if c in s.accounts then s.accounts[c] else NewAccount(c)]
            && second.state.transactions.Keys == s.transactions.Keys + {t1, t2}
  {
    var first := Dispatch(s, Record(Deposit, c, t1, Some(amount)), resolve);
    var second := Dispatch(first.state, Record(Withdrawal, c, t2, Some(amount)), resolve);
    var before := if c in s.accounts then s.accounts[c] else NewAccount(c);
    var credited := before.(available := before.available + amount, total := before.total + amount);
    assert first.error.None? && first.state.accounts == s.accounts[c := credited] by {
      assert c in first.state.accounts && first.state.accounts[c] == credited;
      assert first.state.accounts - {c} == s.accounts - {c};
    }
    assert second.state.accounts == s.accounts[c := before] by {
      assert c in second.state.accounts && second.state.accounts[c] == before;
      assert second.state.accounts - {c} == first.state.accounts - {c};
    }
  }

  /** A run that stops at a malformed record has reported exactly the rejections that
      running only the records before it reports. */
  lemma {:induction false} ParseFailedKeepsPrefixLog(s: State, items: seq<Item>, resolve: ResolveStep)
    ensures var r := Run(s, items, resolve);
            r.ParseFailed? ==>
              && Run(s, items[..r.index], resolve).Finished?
              && Run(s, items[..r.index], resolve).rejected == r.rejected
    decreases |items|
  {
    var r := Run(s, items, resolve);
    if |items| > 0 && items[0].Parsed? && r.ParseFailed? {
      var step := Dispatch(s, items[0].rec, resolve);
      var rest := Run(step.state, items[1..], resolve);
      ParseFailedKeepsPrefixLog(step.state, items[1..], resolve);
      assert r == Resume(Logged(step), 1, rest);
      assert items[..r.index][1..] == items[1..][..rest.index];
    }
  }
}
