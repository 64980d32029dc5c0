/** The mutable entities of `banco.py`: an account's history, the client,
    the account (base or checking, chosen by its policy) and the registration
    of a transaction on an account. */
module Accounts {
  import opened Ledger

  /** `Historico`: the append-only list of records of one account. */
  class History {
    var records: seq<Rec>

    constructor ()
      ensures records == []
    {
      records := [];
    }

    /** `adicionar_transacao`: appends the record of `t`. */
    method Add(t: Transaction)
      modifies this
      ensures records == old(records) + [RecordOf(t)]
    {
      records := records + [RecordOf(t)];
    }
  }

  /** `Cliente` / `PessoaFisica`: identity fields fixed at registration and the
      list of accounts the client owns. */
  class Client {
    const cpf: string
    const name: string
    const birthDate: string
    const address: string
    var accounts: seq<Account>

    constructor (name: string, birthDate: string, cpf: string, address: string)
      ensures this.name == name && this.birthDate == birthDate
      ensures this.cpf == cpf && this.address == address
      ensures accounts == []
    {
      this.name := name;
      this.birthDate := birthDate;
      this.cpf := cpf;
      this.address := address;
      accounts := [];
    }

    /** `adicionar_conta`: appends, with no duplicate check. */
    method AddAccount(account: Account)
      modifies this
      ensures accounts == old(accounts) + [account]
    {
      accounts := accounts + [account];
    }

    /** `realizar_transacao`: with no account nothing happens; otherwise it is
        exactly `Register(t, account)`. */
    method PerformTransaction(account: Account?, t: Transaction) returns (r: Outcome)
      modifies if account == null then {} else {account, account.history}
      ensures account == null ==> r == InvalidAccount
      ensures account != null ==>
                && r == TransactionOutcome(account.policy, old(account.Snapshot()), t)
                && account.Snapshot() == Apply(account.policy, old(account.Snapshot()), t)
                && (old(account.Valid()) ==> account.Valid())
    {
      if account == null {
        r := InvalidAccount;
      } else {
        r := Register(t, account);
      }
    }
  }

  /** `Conta`, and `ContaCorrente` when the policy is `Checking`. The balance
      `_saldo` is the only field that changes; the history object is fixed. */
  class Account {
    var balance: int
    const number: int
    const branch: string
    const owner: Client
    const history: History
    const policy: Policy

    /** Balance and history as a value. */
    function Snapshot(): State
      reads this, history
    {
      State(balance, history.records)
    }

    ghost predicate Valid()
      reads this, history
    {
      branch == Branch && Consistent(policy, Snapshot())
    }

    /** `Conta(numero, cliente)`, or `ContaCorrente(numero, cliente, limite,
        limite_saques)` when `policy` is `Checking(limite, limite_saques)`. */
    constructor (number: int, owner: Client, policy: Policy)
      ensures this.number == number && this.owner == owner && this.policy == policy
      ensures fresh(history) && Snapshot() == Fresh && Valid()
    {
      this.number := number;
      this.owner := owner;
      this.policy := policy;
      balance := 0;
      branch := Branch;
      history := new History();
    }

    /** `Conta.depositar`. */
    method Deposit(v: int) returns (r: Outcome)
      modifies this`balance
      ensures r == DepositOutcome(v)
      ensures balance == if r == Accepted then old(balance) + v else old(balance)
    {
      if v > 0 {
        balance := balance + v;
        r := Accepted;
      } else {
        r := InvalidAmount;
      }
    }

    /** `Conta.sacar`: the base rules, insufficient funds tested first. */
    method BaseWithdraw(v: int) returns (r: Outcome)
      modifies this`balance
      ensures r == BaseWithdrawal(old(balance), v)
      ensures balance == if r == Accepted then old(balance) - v else old(balance)
    {
      if v > balance {
        r := InsufficientFunds;
      } else if v > 0 {
        balance := balance - v;
        r := Accepted;
      } else {
        r := InvalidAmount;
      }
    }

    /** `sacar` dispatched on the kind of account; `ContaCorrente.sacar` counts
        the recorded withdrawals and checks the cap before the base rules. */
    method Withdraw(v: int) returns (r: Outcome)
      modifies this`balance
      ensures r == WithdrawalOutcome(policy, old(Snapshot()), v)
      ensures balance == if r == Accepted then old(balance) - v else old(balance)
    {
      match policy
      case Plain =>
        r := BaseWithdraw(v);
      case Checking(amountLimit, withdrawalLimit) =>
        var withdrawals := WithdrawalCount(history.records);
        if withdrawals >= withdrawalLimit {
          r := WithdrawalLimitExceeded;
        } else if v > amountLimit {
          r := AmountLimitExceeded;
        } else {
          r := BaseWithdraw(v);
        }
    }
  }

  /** `Saque.registrar` and `Deposito.registrar`: run the account operation and
      append the transaction's record only if it was accepted. */
  method Register(t: Transaction, account: Account) returns (r: Outcome)
    modifies account, account.history
    ensures r == TransactionOutcome(account.policy, old(account.Snapshot()), t)
    ensures account.Snapshot() == Apply(account.policy, old(account.Snapshot()), t)
    ensures old(account.Valid()) ==> account.Valid()
  {
    ghost var before := account.Snapshot();
    match t.kind {
      case Deposit =>
        r := account.Deposit(t.amount);
      case Withdrawal =>
        r := account.Withdraw(t.amount);
    }
    if r == Accepted {
      account.history.Add(t);
    }
    if Consistent(account.policy, before) {
      ApplyPreservesConsistent(account.policy, before, t);
    }
  }
}
