/** Sessions of the ledger driven through the class contracts alone, the way
    the menu of `banco.py` would drive them with typed inputs. */
module Scenarios {
  import opened Ledger
  import opened Accounts
  import opened Registry

  /** A CPF registered twice gives one client. */
  method DuplicateClient() {
    var bank := new Bank();
    var client := bank.RegisterClient("111", "Ana Souza", "01/02/1990", "Rua A, 10");
    assert client != null && bank.clients == [client];

    var again := bank.RegisterClient("111", "Ana S.", "01/02/1990", "Rua B, 20");
    assert again == null && bank.clients == [client];
  }

  /** An unknown CPF opens nothing; the first account opened is number 1 and
      belongs to its client. */
  method Opening() {
    var bank := new Bank();
    var client := bank.RegisterClient("111", "Ana Souza", "01/02/1990", "Rua A, 10");
    assert client != null && bank.clients == [client];

    assert FindClient(bank.clients, "999") == None by {
      assert client.cpf[0] != "999"[0];
    }
    var missing := bank.OpenAccount("999");
    assert missing == null && bank.accounts == [];

    assert FindClient(bank.clients, "111") == Some(0);
    var account := bank.OpenAccount("111");
    assert account != null && account.number == 1 && account.owner == client;
    assert client.accounts == [account] && bank.accounts == [account];
  }

  /** Deposit 1000 and withdraw 500; a withdrawal of 501 is then refused by
      the 500 cap before the balance is looked at, and the history keeps its
      two records. */
  method Statement() {
    var client := new Client("Ana Souza", "01/02/1990", "111", "Rua A, 10");
    var account := new Account(1, client, DefaultChecking);

    var r := Register(Transaction(Deposit, 100000), account);
    ghost var h := account.history.records;
    assert h == [] + [Rec(Deposit, 100000)];
    WithdrawalCountAppend([], Rec(Deposit, 100000));
    assert r == Accepted && account.balance == 100000 && WithdrawalCount(h) == 0;

    r := Register(Transaction(Withdrawal, 50000), account);
    assert r == Accepted && account.balance == 50000 && |account.history.records| == 2;

    r := Register(Transaction(Withdrawal, 50100), account);
    assert r == AmountLimitExceeded && account.balance == 50000 && |account.history.records| == 2;
  }

  /** On an empty account a withdrawal of 0.01 lacks funds, while a zero or
      negative amount is an invalid amount. */
  method EmptyAccount() {
    var client := new Client("Caio", "05/06/2000", "333", "Rua D, 40");
    var account := new Account(1, client, DefaultChecking);
    assert WithdrawalCount(account.history.records) == 0;

    var r := Register(Transaction(Withdrawal, 1), account);
    assert r == InsufficientFunds && account.Snapshot() == Fresh;
    r := Register(Transaction(Withdrawal, 0), account);
    assert r == InvalidAmount && account.Snapshot() == Fresh;
    r := Register(Transaction(Withdrawal, -500), account);
    assert r == InvalidAmount && account.Snapshot() == Fresh;
  }

  /** `realizar_transacao` without an account, or with a refused amount,
      changes nothing. */
  method RefusedTransactions(client: Client, account: Account)
    modifies account, account.history
  {
    var before := account.Snapshot();
    var r := client.PerformTransaction(null, Transaction(Deposit, 100));
    assert r == InvalidAccount && account.Snapshot() == before;
    r := client.PerformTransaction(account, Transaction(Deposit, 0));
    assert r == InvalidAmount && account.Snapshot() == before;
  }

  /** The per-withdrawal cap refuses 500.01 and admits exactly 500. */
  method AmountCap() {
    var owner := new Client("Bia", "03/04/1985", "222", "Rua C, 30");
    var account := new Account(1, owner, DefaultChecking);

    var r := Register(Transaction(Deposit, 1000000), account);
    var h := [Rec(Deposit, 1000000)];
    assert account.Snapshot() == State(1000000, h);
    assert WithdrawalCount(h) == 0 by {
      WithdrawalCountAppend([], h[0]);
      assert [] + [h[0]] == h;
    }

    r := Register(Transaction(Withdrawal, 50001), account);
    assert r == AmountLimitExceeded && account.Snapshot() == State(1000000, h);

    r := Register(Transaction(Withdrawal, 50000), account);
    assert r == Accepted && account.balance == 950000;
  }
}
