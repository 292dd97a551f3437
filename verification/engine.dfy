/** The engine: dispatch of one record to the handler for its kind, and the run over
    the record stream, in which a rejected record is logged and skipped while a
    malformed record ends the run. */
module Engine {
  import opened Ledger
  import DepositHandler
  import WithdrawalHandler
  import DisputeHandler
  import ChargebackHandler

  /** The resolve handler is not part of this model: the engine takes it as a parameter. */
  type ResolveStep = (State, Record) -> Step

  /** Routes a record to the handler of its kind and returns what that handler left. */
  function Dispatch(s: State, rec: Record, resolve: ResolveStep): (r: Step)
    // Accounts are never removed, and only a deposit creates one.
    ensures rec.kind != Resolve ==> s.accounts.Keys <= r.state.accounts.Keys
    ensures rec.kind != Resolve && rec.kind != Deposit ==> r.state.accounts.Keys == s.accounts.Keys
    // Stored entries are never removed; only deposits and withdrawals add one, and
    // an existing entry can change only in its status.
    ensures rec.kind != Resolve ==> s.transactions.Keys <= r.state.transactions.Keys
    ensures rec.kind == Dispute || rec.kind.Chargeback? ==>
              r.state.transactions.Keys == s.transactions.Keys
    ensures rec.kind != Resolve ==>
              forall t :: t in s.transactions ==>
                r.state.transactions[t] == s.transactions[t].(status := r.state.transactions[t].status)
    // The only status changes are Valid to Disputed by a dispute and Disputed to
    // Chargeback by a chargeback, each on the record's own transaction id.
    ensures rec.kind != Resolve ==>
              forall t :: t in s.transactions && r.state.transactions[t].status != s.transactions[t].status ==>
                && t == rec.txId
                && ((rec.kind == Dispute && s.transactions[t].status == Valid &&
                     r.state.transactions[t].status == Disputed) ||
                    (rec.kind.Chargeback? && s.transactions[t].status == Disputed &&
                     r.state.transactions[t].status == TxStatus.Chargeback))
    // A lock is never lifted, and only an accepted chargeback sets one, on its own client.
    ensures rec.kind != Resolve ==> forall c :: IsLocked(s, c) ==> IsLocked(r.state, c)
    ensures rec.kind != Resolve ==>
              forall c :: IsLocked(r.state, c) && !IsLocked(s, c) ==>
                rec.kind.Chargeback? && r.error.None? && c == rec.client
    // Every record for a locked client is refused and changes nothing.
    ensures rec.kind != Resolve && IsLocked(s, rec.client) ==> r.error.Some? && r.state == s
    // A rejection changes nothing, except a chargeback refused for want of funds,
    // which leaves its deposit marked Chargeback.
    ensures rec.kind != Resolve && r.error.Some? ==>
              || r.state == s
              || (&& rec.kind.Chargeback?
                  && r.error.value.BalanceInsufficient?
                  && rec.txId in s.transactions
                  && r.state == ChargebackHandler.MarkCharged(s, rec.txId))
    // From a well-formed state the handlers keep the state well-formed, and a dispute
    // or chargeback can never find the deposit's amount or the client's account missing.
    ensures rec.kind != Resolve && WellFormed(s) ==> WellFormed(r.state)
    ensures (rec.kind == Dispute || rec.kind.Chargeback?) && WellFormed(s) && r.error.Some? ==>
              !r.error.value.MissingAmount? && !r.error.value.AccountNotFound?
  {
    match rec.kind
    case Deposit => DepositHandler.Handle(s, rec)
    case Withdrawal => WithdrawalHandler.Handle(s, rec)
    case Resolve => resolve(s, rec)
    case Chargeback => ChargebackHandler.Handle(s, rec)
    case Dispute => DisputeHandler.Handle(s, rec)
  }

  /** One element of the record stream: a parsed record, or a record the stream
      adapter could not read or deserialize. */
  datatype Item = Parsed(rec: Record) | Malformed

  /** How a run ends: the stream was drained, leaving the final state, or a malformed
      record at `index` aborted it and the state is lost. Either way `rejected` is the
      log of rejected records, in input order, met before the run ended: what the
      loop prints when it runs verbose. */
  datatype RunOutcome =
    | Finished(state: State, rejected: seq<TxError>)
    | ParseFailed(index: nat, rejected: seq<TxError>)

  /** The error a step logs, if it was a rejection. */
  function Logged(step: Step): seq<TxError>
  {
    if step.error.Some? then [step.error.value] else []
  }

  /** The outcome of a whole run, given the outcome of its last `|items| - k` records
      and the log of rejections among its first `k`. */
  function Resume(log: seq<TxError>, k: nat, rest: RunOutcome): RunOutcome
  {
    match rest
    case Finished(st, later) => Finished(st, log + later)
    case ParseFailed(i, later) => ParseFailed(k + i, log + later)
  }

  /** Processes the stream in order: each parsed record is dispatched and the run
      continues with whatever state the handler left, whether it accepted or
      rejected the record; a malformed record stops the run. */
  function Run(s: State, items: seq<Item>, resolve: ResolveStep): (r: RunOutcome)
    ensures r.ParseFailed? <==> exists i :: 0 <= i < |items| && items[i].Malformed?
    ensures r.ParseFailed? ==>
              && r.index < |items|
              && items[r.index].Malformed?
              && forall i :: 0 <= i < r.index ==> items[i].Parsed?
    ensures r.Finished? ==> |r.rejected| <= |items|
    ensures r.ParseFailed? ==> |r.rejected| <= r.index
    decreases |items|
  {
    if |items| == 0 then Finished(s, [])
    else
      match items[0]
      case Malformed => ParseFailed(0, [])
      case Parsed(rec) =>
        var step := Dispatch(s, rec, resolve);
        var rest := Run(step.state, items[1..], resolve);
        assert forall i :: 1 <= i < |items| ==> items[i] == items[1..][i - 1];
        Resume(Logged(step), 1, rest)
  }

  /** Resuming twice is resuming once with the two logs joined. */
  lemma ResumeTwice(log: seq<TxError>, k: nat, step: Step, rest: RunOutcome)
    ensures Resume(log, k, Resume(Logged(step), 1, rest)) == Resume(log + Logged(step), k + 1, rest)
  {
    assert log + (Logged(step) + rest.rejected) == (log + Logged(step)) + rest.rejected;
  }

  /** The processing loop as the implementation writes it: one state updated in
      place, rejections appended to a log. */
  method Process(s0: State, items: seq<Item>, resolve: ResolveStep) returns (r: RunOutcome)
    ensures r == Run(s0, items, resolve)
  {
    var s := s0;
    var log: seq<TxError> := [];
    var i := 0;
    while i < |items|
      invariant 0 <= i <= |items|
      invariant Run(s0, items, resolve) == Resume(log, i, Run(s, items[i..], resolve))
    {
      match items[i]
      case Malformed =>
        assert log + [] == log;
        return ParseFailed(i, log);
      case Parsed(rec) =>
        var step := Dispatch(s, rec, resolve);
        assert items[i..][1..] == items[i + 1..];
        assert Run(s, items[i..], resolve) == Resume(Logged(step), 1, Run(step.state, items[i + 1..], resolve));
        ResumeTwice(log, i, step, Run(step.state, items[i + 1..], resolve));
        s := step.state;
        log := log + Logged(step);
        i := i + 1;
    }
    assert log + [] == log;
    r := Finished(s, log);
  }
}
