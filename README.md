# Bank ledger model (BancoPOO)

A Dafny model of the account and transaction domain of `banco.py`, a small
single-threaded bank ledger. Clients (`Cliente`/`PessoaFisica`) own accounts
(`Conta`, and its checking variant `ContaCorrente`). Deposits (`Deposito`) and
withdrawals (`Saque`) are registered on an account. An accepted operation moves
the balance and appends one record to the account's history (`Historico`). A
registry of all clients and all accounts (the lists `clientes` and `contas` of
`main`) registers clients by CPF and opens sequentially numbered accounts.

Layout:

- `ledger.dfy`, module `Ledger`: the rules as values. It holds the record and
  transaction datatypes, the acceptance rules of `depositar`, `Conta.sacar` and
  `ContaCorrente.sacar`, and the effect `Apply` of one `registrar`. It also
  holds the ledger invariant `Consistent` and the lemmas that every
  registration keeps it. The invariant says: the balance equals recorded
  deposits minus recorded withdrawals, the balance is never negative, every
  recorded amount is positive, and a checking account keeps its withdrawal
  count and per-withdrawal caps.
- `accounts.dfy`, module `Accounts`: the mutable entities as classes. `History`
  owns the append-only `records`. `Client` owns its `accounts` list. `Account`
  owns the `balance` and a fixed `History`. The `ensures` of the `Account`
  methods, `History.Add`, `Register` and `PerformTransaction` tie the new
  state to the `Ledger` functions of the old state.
- `registry.dfy`, module `Registry`: the `Bank` class with the client and
  account lists, and the CPF lookup. Its invariant: CPFs are unique, accounts
  are numbered 1..n in opening order, and every account is in its owner's list.
- `scenarios.dfy`, module `Scenarios`: client methods. They drive the classes
  through their contracts alone: duplicate CPF, unknown CPF, a statement
  session, an empty account, refused transactions and the 500 cap. The
  fourth-withdrawal refusal is the `Ledger` lemma `FourthWithdrawalRefused`.

Amounts are integers of cents. The checking account's default cap of 500
currency units is `DefaultAmountLimit = 50000`, and its lifetime withdrawal
limit is `DefaultWithdrawalLimit = 3`. The source returns `True`/`False` and
prints a message per refusal. The model returns an `Outcome` that names the
branch taken (`Accepted`, `InvalidAmount`, `InsufficientFunds`,
`WithdrawalLimitExceeded`, `AmountLimitExceeded`, `InvalidAccount`). `Accepted`
is exactly the source's `True`.

Python inheritance (`ContaCorrente(Conta)` overriding `sacar`) becomes one
`Account` class with a constant `policy`. `Plain` runs the base rules.
`Checking(amountLimit, withdrawalLimit)` runs the two pre-checks and then the
base rules. `Account.Withdraw` dispatches on the policy.

Two orderings in the code matter:

- `Conta.sacar` tests insufficient funds before the sign of the amount
  (banco.py:78, 81). `BaseWithdrawal` proves that the order does not matter
  when the balance is non-negative.
- The 500 cap refuses a withdrawal of 501 from a checking account holding 500
  (banco.py:109) before the balance is looked at. The balance and history are
  unchanged. `Scenarios.Statement` shows it.

## Model

| member | source | states |
|---|---|---|
| Ledger.WithdrawalCount | banco.py:105 | the number of `Saque` records never exceeds the length of the history |
| Ledger.WithdrawalCountAppend | banco.py:105 | appending a record raises the withdrawal count by one exactly when the record is a `Saque` |
| Ledger.NetAppend | banco.py:38-43 | appending a record moves deposits-minus-withdrawals by exactly that record's signed amount |
| Ledger.DepositOutcome | banco.py:89-96 | a deposit is accepted iff the amount is positive, and every refusal is an invalid amount |
| Ledger.BaseWithdrawal | banco.py:77-87 | accepted iff 0 < v <= balance; insufficient funds iff v > balance; with a non-negative balance, invalid amount iff v <= 0 |
| Ledger.CheckingWithdrawal | banco.py:104-113 | the count refusal happens exactly when the recorded withdrawals reach limite_saques; the cap refuses v > limite exactly when below the count limit; once both pass, the base rules of `Conta.sacar` decide; accepted iff count < limite_saques and 0 < v <= limite and v <= balance, so exactly limite passes the cap |
| Ledger.Apply | banco.py:133-147 | registering keeps the old history as a prefix and adds at most one record |
| Ledger.ApplyConservesBalance | banco.py:133-147 | the balance moves by exactly the net (deposits minus withdrawals) of what registering recorded |
| Ledger.ApplyAppendsIffAccepted | banco.py:133-147 | the history gains exactly the transaction's record iff the account operation accepted it; a refusal changes neither balance nor history |
| Ledger.FreshConsistent | banco.py:46-51 | a new account (balance 0, empty history) satisfies the ledger invariant |
| Ledger.ApplyPreservesConsistent | banco.py:133-147 | every registration keeps balance == deposits - withdrawals, balance >= 0, positive recorded amounts and the checking caps |
| Ledger.ReplayFromConsistent | banco.py:133-147 | any sequence of registrations from a consistent state ends in a consistent state |
| Ledger.ReplayConsistent | banco.py:45-51 | from a new account, every sequence of registrations leaves the balance equal to recorded deposits minus recorded withdrawals, never negative |
| Ledger.CheckingWithdrawalsBounded | banco.py:98-113 | a default checking account records at most 3 withdrawals in its lifetime, each of at most 500 |
| Ledger.WithdrawalsStopAtLimit | banco.py:104-108 | once 3 withdrawals are recorded, any further withdrawals, of any amounts, leave the state unchanged |
| Ledger.FourthWithdrawalRefused | banco.py:104-108 | after a deposit of 1000 and three withdrawals of 100 on a new checking account (balance 700, three `Saque` records), a fourth withdrawal of any amount is refused by the count limit |
| Accounts.History.constructor | banco.py:35-36 | a history starts empty |
| Accounts.History.Add | banco.py:38-43 | appends exactly the transaction's record (kind and amount) and changes nothing else |
| Accounts.Client.constructor | banco.py:28-32 | a client holds the given CPF, name, birth date and address, and no accounts |
| Accounts.Client.AddAccount | banco.py:20-21 | appends the account to the client's list, with no duplicate check |
| Accounts.Client.PerformTransaction | banco.py:14-18 | with no account nothing changes; otherwise the outcome, new balance and new history are those of `registrar` on that account, and the ledger invariant is kept |
| Accounts.Account.constructor | banco.py:46-51 | a new account has the given number and owner, branch "0001", balance 0, a fresh empty history, and is consistent |
| Accounts.Account.Deposit | banco.py:89-96 | the outcome is `DepositOutcome`; the balance rises by exactly v when accepted and is unchanged otherwise |
| Accounts.Account.BaseWithdraw | banco.py:77-87 | the outcome is `BaseWithdrawal` of the old balance; the balance falls by exactly v when accepted and is unchanged otherwise |
| Accounts.Account.Withdraw | banco.py:104-113 | dispatches on the account kind: a checking account counts its recorded withdrawals and checks the cap before the base rules; the history is not touched |
| Accounts.Register | banco.py:133-147 | runs the account operation and appends the record only on acceptance (the new state is `Apply` of the old); a consistent account stays consistent |
| Registry.FindClient | banco.py:175 | returns the first position holding the CPF, or none exactly when no client has it |
| Registry.Bank.constructor | banco.py:254-255 | the registry starts with no clients and no accounts |
| Registry.Bank.RegisterClient | banco.py:173-183 | a CPF already present leaves the client list unchanged; a new CPF appends exactly one fresh client without accounts; CPFs stay unique |
| Registry.Bank.OpenAccount | banco.py:185-195 | an unknown CPF changes neither list; otherwise a fresh default checking account numbered len(contas)+1, branch "0001", balance 0 and empty history is appended to its owner's list and to the global list, and numbering stays 1..n |

## Left out

- Terminal I/O: `menu`, `main`'s loop, the `input` parsing in `selecionar_conta` and in the top-level `depositar`/`sacar`/`exibir_extrato`, and every `print`. The display-only `listar_contas`, `exibir_clientes`, `exibir_extrato` and `Cliente.listar_contas` are left out too. Outcomes are returned as `Outcome` values instead of messages.
- Locale setup and currency formatting (`locale.currency`, the `saldo` property). The model keeps the raw balance and raw amounts.
- Floating-point amounts: the model uses exact integers of cents.
- The `datetime.now()` timestamp of a history record, because it is a wall-clock call. History order is insertion order.
- Reflection on the transaction's class name for the record kind. An explicit `Kind` tag replaces it.
- `Conta.nova_conta` is the `Account` constructor. The read-only properties `numero`, `agencia`, `cliente` and `historico` are constant fields.
- The registry's invariant does not include each account's ledger invariant. That invariant is kept per account by `Accounts.Register`.
- The source's `registrar` returns nothing. The model's `Register` returns the outcome so that callers can see which rule applied.
