/** The top-level state of `banco.py`: the list of all clients and the list of
    all accounts, with client registration (`criar_cliente`) and account
    opening (`criar_conta`) taking their inputs as parameters. */
module Registry {
  import opened Ledger
  import opened Accounts

  datatype Option<T> = None | Some(value: T)

  /** `next((c for c in clientes if c.cpf == cpf), None)`: the position of the
      first client with that CPF, or none. */
  function FindClient(clients: seq<Client>, cpf: string): (r: Option<nat>)
    ensures r.Some? ==> r.value < |clients| && clients[r.value].cpf == cpf
    ensures r.Some? ==> forall j :: 0 <= j < r.value ==> clients[j].cpf != cpf
    ensures r.None? <==> forall j :: 0 <= j < |clients| ==> clients[j].cpf != cpf
  {
    if clients == [] then None
    else if clients[0].cpf == cpf then Some(0)
    else
      match FindClient(clients[1..], cpf)
      case None => None
      case Some(i) => Some(i + 1)
  }

  /** The lists `clientes` and `contas` that `main` starts empty. */
  class Bank {
    var clients: seq<Client>
    var accounts: seq<Account>

    /** CPFs are unique, accounts are numbered 1..n in opening order, and
        every account sits in its owner's list and nowhere else. */
    ghost predicate Valid()
      reads this, clients
    {
      && (forall i, j :: 0 <= i < j < |clients| ==> clients[i].cpf != clients[j].cpf)
      && (forall i :: 0 <= i < |accounts| ==> accounts[i].number == i + 1)
      && (forall i :: 0 <= i < |accounts| ==>
            accounts[i].owner in clients && accounts[i] in accounts[i].owner.accounts)
      && (forall c :: c in clients ==> Owns(c))
    }

    /** Every account in the list of `c` is registered and owned by `c`. */
    ghost predicate Owns(c: Client)
      reads this, c
    {
      forall a :: a in c.accounts ==> a in accounts && a.owner == c
    }

    constructor ()
      ensures clients == [] && accounts == [] && Valid()
    {
      clients := [];
      accounts := [];
    }

    /** `criar_cliente`: a CPF already registered leaves the list unchanged;
        a new one appends exactly one client, with no accounts. */
    method RegisterClient(cpf: string, name: string, birthDate: string, address: string)
      returns (client: Client?)
      requires Valid()
      modifies this
      ensures Valid() && accounts == old(accounts)
      ensures FindClient(old(clients), cpf).Some? ==> client == null && clients == old(clients)
      ensures FindClient(old(clients), cpf).None? ==>
                && client != null && fresh(client)
                && clients == old(clients) + [client]
                && client.cpf == cpf && client.name == name
                && client.birthDate == birthDate && client.address == address
                && client.accounts == []
    {
      if FindClient(clients, cpf).Some? {
        client := null;
      } else {
        client := new Client(name, birthDate, cpf, address);
        clients := clients + [client];
      }
    }

    /** `criar_conta`: an unknown CPF changes nothing; otherwise a fresh checking
        account numbered `len(contas) + 1`, with balance 0 and an empty history,
        is appended to its owner's list and to the global list. */
    method OpenAccount(cpf: string) returns (account: Account?)
      requires Valid()
      modifies this, clients
      ensures Valid() && clients == old(clients)
      ensures FindClient(clients, cpf).None? ==>
                && account == null && accounts == old(accounts)
                && forall j :: 0 <= j < |clients| ==> clients[j].accounts == old(clients[j].accounts)
      ensures FindClient(clients, cpf).Some? ==>
                var i := FindClient(clients, cpf).value;
                && account != null && fresh(account) && fresh(account.history)
                && accounts == old(accounts) + [account]
                && account.number == |old(accounts)| + 1
                && account.branch == Branch
                && account.owner == clients[i]
                && account.policy == DefaultChecking
                && account.Snapshot() == Fresh && account.Valid()
                && clients[i].accounts == old(clients[i].accounts) + [account]
                && forall j :: 0 <= j < |clients| && j != i ==> clients[j].accounts == old(clients[j].accounts)
    {
      match FindClient(clients, cpf)
      case None =>
        account := null;
      case Some(i) =>
        var owner := clients[i];
        account := new Account(|accounts| + 1, owner, DefaultChecking);
        owner.AddAccount(account);
        accounts := accounts + [account];
        assert forall j :: 0 <= j < |clients| && j != i ==> clients[j] != owner;
        forall c | c in clients ensures Owns(c) {
          assert old(Owns(c));
        }
    }
  }
}
