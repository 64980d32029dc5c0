/** The rules of the account ledger of `banco.py`, as values: history records,
    the acceptance rules of deposits and withdrawals, the effect of registering
    a transaction, and the invariant that every registration keeps.
    Amounts are whole cents; the source's floats are not modelled. */
module Ledger {

  /** Routing code (`agencia`) shared by every account. */
  const Branch: string := "0001"

  /** Per-withdrawal cap of a checking account: 500 currency units, in cents. */
  const DefaultAmountLimit: int := 50000

  /** Lifetime number of withdrawals a checking account accepts. */
  const DefaultWithdrawalLimit: int := 3

  /** Kind tag of a transaction: `Deposito` or `Saque`. */
  datatype Kind = Deposit | Withdrawal

  /** A requested movement of money. Construction validates nothing. */
  datatype Transaction = Transaction(kind: Kind, amount: int)

  /** One entry of an account's history (the wall-clock timestamp is dropped). */
  datatype Rec = Rec(kind: Kind, amount: int)

  /** Which `sacar` an account runs: the base account's (`Conta`) or the
      checking account's (`ContaCorrente`) with its two caps. */
  datatype Policy = Plain | Checking(amountLimit: int, withdrawalLimit: int)

  /** The checking account `criar_conta` opens, with the constructor's defaults. */
  const DefaultChecking: Policy := Checking(DefaultAmountLimit, DefaultWithdrawalLimit)

  /** Why an operation was accepted or refused. The source returns `True` only
      for `Accepted` and prints one message per refusal. */
  datatype Outcome =
    | Accepted
    | InvalidAmount
    | InsufficientFunds
    | WithdrawalLimitExceeded
    | AmountLimitExceeded
    | InvalidAccount

  /** Balance and history of one account. */
  datatype State = State(balance: int, records: seq<Rec>)

  /** The state of a freshly opened account. */
  const Fresh: State := State(0, [])

  /** The record `adicionar_transacao` appends for `t`. */
  function RecordOf(t: Transaction): Rec {
    Rec(t.kind, t.amount)
  }

  /** What an accepted `t` does to the balance. */
  function Effect(t: Transaction): int {
    match t.kind
    case Deposit => t.amount
    case Withdrawal => -t.amount
  }

  /** Number of `Saque` records in a history. */
  function WithdrawalCount(records: seq<Rec>): (n: nat)
    ensures n <= |records|
  {
    if records == [] then 0
    else
      var last := records[|records| - 1];
      WithdrawalCount(records[..|records| - 1]) + (if last.kind == Withdrawal then 1 else 0)
  }

  /** Sum of the amounts of the records of one kind. */
  function Total(records: seq<Rec>, kind: Kind): (sum: int)
    ensures (forall i :: 0 <= i < |records| ==> records[i].amount > 0) ==> sum >= 0
  {
    if records == [] then 0
    else
      var last := records[|records| - 1];
      Total(records[..|records| - 1], kind) + (if last.kind == kind then last.amount else 0)
  }

  /** Recorded deposits minus recorded withdrawals. */
  function Net(records: seq<Rec>): int {
    Total(records, Deposit) - Total(records, Withdrawal)
  }

  lemma WithdrawalCountAppend(records: seq<Rec>, r: Rec)
    ensures WithdrawalCount(records + [r]) ==
            WithdrawalCount(records) + (if r.kind == Withdrawal then 1 else 0)
  {
  }

  lemma NetAppend(records: seq<Rec>, r: Rec)
    ensures Net(records + [r]) == Net(records) + (if r.kind == Deposit then r.amount else -r.amount)
  {
  }

  /** `Conta.depositar`: only a positive amount is accepted. */
  function DepositOutcome(v: int): (r: Outcome)
    ensures r == Accepted <==> v > 0
    ensures r != Accepted ==> r == InvalidAmount
  {
    if v > 0 then Accepted else InvalidAmount
  }

  /** `Conta.sacar`: insufficient funds is tested before the sign of the amount. */
  function BaseWithdrawal(balance: int, v: int): (r: Outcome)
    ensures r == Accepted <==> 0 < v <= balance
    ensures r == InsufficientFunds <==> v > balance
    ensures r in {Accepted, InsufficientFunds, InvalidAmount}
    // with a non-negative balance the order of the two checks does not matter
    ensures balance >= 0 ==> (r == InvalidAmount <==> v <= 0)
  {
    if v > balance then InsufficientFunds
    else if v > 0 then Accepted
    else InvalidAmount
  }

  /** `ContaCorrente.sacar`: the lifetime withdrawal count, then the amount cap,
      and only then the base rules. */
  function CheckingWithdrawal(amountLimit: int, withdrawalLimit: int, s: State, v: int): (r: Outcome)
    ensures r == WithdrawalLimitExceeded <==> WithdrawalCount(s.records) >= withdrawalLimit
    ensures r == AmountLimitExceeded <==> WithdrawalCount(s.records) < withdrawalLimit && v > amountLimit
    ensures r == Accepted <==>
              WithdrawalCount(s.records) < withdrawalLimit && 0 < v <= amountLimit && v <= s.balance
    ensures WithdrawalCount(s.records) < withdrawalLimit && v <= amountLimit ==>
              r == BaseWithdrawal(s.balance, v)
  {
    if WithdrawalCount(s.records) >= withdrawalLimit then WithdrawalLimitExceeded
    else if v > amountLimit then AmountLimitExceeded
    else BaseWithdrawal(s.balance, v)
  }

  /** `sacar` dispatched on the kind of account. */
  function WithdrawalOutcome(policy: Policy, s: State, v: int): Outcome {
    match policy
    case Plain => BaseWithdrawal(s.balance, v)
    case Checking(amountLimit, withdrawalLimit) => CheckingWithdrawal(amountLimit, withdrawalLimit, s, v)
  }

  /** The account operation `Saque.registrar` / `Deposito.registrar` runs. */
  function TransactionOutcome(policy: Policy, s: State, t: Transaction): Outcome {
    match t.kind
    case Deposit => DepositOutcome(t.amount)
    case Withdrawal => WithdrawalOutcome(policy, s, t.amount)
  }

  /** `registrar`: run the account operation; only when it succeeds does the
      balance move and the history gain the transaction's record. */
  function Apply(policy: Policy, s: State, t: Transaction): (s': State)
    // the history is append-only and grows by at most one record
    ensures s.records <= s'.records && |s'.records| <= |s.records| + 1
  {
    if TransactionOutcome(policy, s, t) == Accepted then
      State(s.balance + Effect(t), s.records + [RecordOf(t)])
    else s
  }

  /** Registering moves the balance by exactly the net of what it recorded. */
  lemma ApplyConservesBalance(policy: Policy, s: State, t: Transaction)
    ensures var s' := Apply(policy, s, t);
            s'.balance - s.balance == Net(s'.records) - Net(s.records)
  {
    NetAppend(s.records, RecordOf(t));
  }

  /** The state reached by registering `ts`, in order, starting from `s`. */
  function ReplayFrom(policy: Policy, s: State, ts: seq<Transaction>): State {
    if ts == [] then s
    else Apply(policy, ReplayFrom(policy, s, ts[..|ts| - 1]), ts[|ts| - 1])
  }

  /** The state reached by registering `ts`, in order, on a fresh account. */
  function Replay(policy: Policy, ts: seq<Transaction>): State {
    ReplayFrom(policy, Fresh, ts)
  }

  function Max0(n: int): nat {
    if n < 0 then 0 else n
  }

  /** The caps a checking account's history respects. */
  predicate WithinLimits(policy: Policy, records: seq<Rec>) {
    match policy
    case Plain => true
    case Checking(amountLimit, withdrawalLimit) =>
      && WithdrawalCount(records) <= Max0(withdrawalLimit)
      && forall i :: 0 <= i < |records| && records[i].kind == Withdrawal ==> records[i].amount <= amountLimit
  }

  /** The ledger invariant: the balance is what the history says, it is never
      negative, every recorded amount is positive, and the checking caps hold. */
  predicate Consistent(policy: Policy, s: State) {
    && s.balance == Net(s.records)
    && s.balance >= 0
    && (forall i :: 0 <= i < |s.records| ==> s.records[i].amount > 0)
    && WithinLimits(policy, s.records)
  }

  lemma FreshConsistent(policy: Policy)
    ensures Consistent(policy, Fresh)
  {
  }

  /** Every registration keeps the ledger invariant. */
  lemma ApplyPreservesConsistent(policy: Policy, s: State, t: Transaction)
    requires Consistent(policy, s)
    ensures Consistent(policy, Apply(policy, s, t))
  {
  }

  /** Starting from a fresh account, any sequence of registrations leaves the
      balance equal to deposits minus withdrawals, and never negative. */
  lemma {:induction false} ReplayFromConsistent(policy: Policy, s: State, ts: seq<Transaction>)
    requires Consistent(policy, s)
    ensures Consistent(policy, ReplayFrom(policy, s, ts))
  {
    if ts != [] {
      ReplayFromConsistent(policy, s, ts[..|ts| - 1]);
      ApplyPreservesConsistent(policy, ReplayFrom(policy, s, ts[..|ts| - 1]), ts[|ts| - 1]);
    }
  }

  lemma ReplayConsistent(policy: Policy, ts: seq<Transaction>)
    ensures Consistent(policy, Replay(policy, ts))
  {
    FreshConsistent(policy);
    ReplayFromConsistent(policy, Fresh, ts);
  }

  /** A checking account with the default caps records at most three
      withdrawals, each of at most 500, over its whole lifetime. */
  lemma CheckingWithdrawalsBounded(ts: seq<Transaction>)
    ensures var records := Replay(DefaultChecking, ts).records;
            && WithdrawalCount(records) <= DefaultWithdrawalLimit
            && forall i :: 0 <= i < |records| && records[i].kind == Withdrawal ==>
                 0 < records[i].amount <= DefaultAmountLimit
  {
    ReplayConsistent(DefaultChecking, ts);
  }

  /** A refused operation changes neither the balance nor the history; an
      accepted one appends exactly the transaction's record. */
  lemma ApplyAppendsIffAccepted(policy: Policy, s: State, t: Transaction)
    ensures Apply(policy, s, t).records == s.records + [RecordOf(t)] <==> TransactionOutcome(policy, s, t) == Accepted
    ensures TransactionOutcome(policy, s, t) != Accepted ==> Apply(policy, s, t) == s
  {
  }

  /** Once the count cap is reached, no withdrawal of any amount is accepted. */
  lemma {:induction false} WithdrawalsStopAtLimit(s: State, ts: seq<Transaction>)
    requires WithdrawalCount(s.records) >= DefaultWithdrawalLimit
    requires forall i :: 0 <= i < |ts| ==> ts[i].kind == Withdrawal
    ensures ReplayFrom(DefaultChecking, s, ts) == s
  {
    if ts != [] {
      WithdrawalsStopAtLimit(s, ts[..|ts| - 1]);
    }
  }

  /** Deposit 1000 and withdraw 100 three times on a new checking account:
      the fourth withdrawal is refused whatever its amount, although the
      balance of 700 would cover many amounts. */
  lemma FourthWithdrawalRefused(v: int)
    ensures var w := Transaction(Withdrawal, 10000);
            var s := Apply(DefaultChecking, Apply(DefaultChecking, Apply(DefaultChecking,
                       Apply(DefaultChecking, Fresh, Transaction(Deposit, 100000)), w), w), w);
            && s.balance == 70000 && WithdrawalCount(s.records) == 3
            && TransactionOutcome(DefaultChecking, s, Transaction(Withdrawal, v)) == WithdrawalLimitExceeded
  {
    var w := Transaction(Withdrawal, 10000);
    var s0 := Apply(DefaultChecking, Fresh, Transaction(Deposit, 100000));
    WithdrawalCountAppend([], RecordOf(Transaction(Deposit, 100000)));
    assert s0.balance == 100000 && WithdrawalCount(s0.records) == 0;
    var s1 := Apply(DefaultChecking, s0, w);
    WithdrawalCountAppend(s0.records, RecordOf(w));
    assert s1.balance == 90000 && WithdrawalCount(s1.records) == 1;
    var s2 := Apply(DefaultChecking, s1, w);
    WithdrawalCountAppend(s1.records, RecordOf(w));
    assert s2.balance == 80000 && WithdrawalCount(s2.records) == 2;
    WithdrawalCountAppend(s2.records, RecordOf(w));
  }
}
