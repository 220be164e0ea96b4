/** AccountRepo of server/storage/accounts.py, statement by statement. */
module Accounts {
  import opened Ledger
  import opened Database

  class AccountRepo {
    const db: Connection

    constructor (db: Connection)
      ensures this.db == db
    {
      this.db := db;
    }

    method Create(id: Id, role: Role, balance: real)
      modifies db
      ensures db.View() == old(db.View()).(books := Created(old(db.Books()), id, role, balance))
    {
      if id !in db.accounts {
        db.accounts := db.accounts[id := Account(role, balance)];
      }
    }

    method GetOrCreateProvider(id: Id)
      modifies db
      ensures db.View() == old(db.View()).(books := Created(old(db.Books()), id, Provider, 0.0))
    {
      if id !in db.accounts {
        Create(id, Provider, 0.0);
      }
    }

    method UpdateBalance(id: Id, balance: real)
      modifies db`accounts
      ensures id in old(db.accounts) ==> db.accounts == old(db.accounts)[id := old(db.accounts)[id].(balance := balance)]
      ensures id !in old(db.accounts) ==> db.accounts == old(db.accounts)
    {
      if id in db.accounts {
        db.accounts := db.accounts[id := db.accounts[id].(balance := balance)];
      }
    }

    /** INSERT INTO transactions; false is a foreign-key failure. */
    method RecordTx(tx: Tx) returns (ok: bool)
      modifies db`transactions
      ensures ok == (tx.account in db.accounts)
      ensures db.transactions == if ok then old(db.transactions) + [tx] else old(db.transactions)
    {
      ok := tx.account in db.accounts;
      if ok {
        db.transactions := db.transactions + [tx];
      }
    }

    method Deposit(id: Id, amount: real) returns (outcome: Outcome)
      modifies db
      ensures var (b, o) := Deposited(old(db.Books()), id, amount);
              db.View() == old(db.View()).(books := b) && outcome == o
    {
      if amount <= 0.0 {
        return ValueError;
      }
      if id !in db.accounts {
        return KeyError;
      }
      var newBalance := db.accounts[id].balance + amount;
      UpdateBalance(id, newBalance);
      var ok := RecordTx(Tx(id, TxKind.Deposit, amount, ""));
      return Done;
    }

    method Withdraw(id: Id, amount: real) returns (outcome: Outcome)
      modifies db
      ensures var (b, o) := Withdrawn(old(db.Books()), id, amount);
              db.View() == old(db.View()).(books := b) && outcome == o
    {
      if amount <= 0.0 {
        return ValueError;
      }
      if id !in db.accounts {
        return KeyError;
      }
      if db.accounts[id].balance < amount {
        return ValueError;
      }
      var newBalance := db.accounts[id].balance - amount;
      UpdateBalance(id, newBalance);
      var ok := RecordTx(Tx(id, TxKind.Withdraw, amount, ""));
      return Done;
    }

    /** UPDATE ... SET balance = balance + amount WHERE account_id = id. */
    method Add(id: Id, amount: real)
      modifies db`accounts
      ensures db.accounts == Credited(old(db.accounts), id, amount)
    {
      if id in db.accounts {
        db.accounts := db.accounts[id := db.accounts[id].(balance := db.accounts[id].balance + amount)];
      }
    }

    /** Both balances are updated before either row is inserted. */
    method Transfer(from: Id, to: Id, amount: real, reference: string) returns (outcome: Outcome)
      modifies db
      ensures var (b, o) := Transferred(old(db.Books()), from, to, amount, reference);
              db.View() == old(db.View()).(books := b) && outcome == o
    {
      if amount <= 0.0 {
        return ValueError;
      }
      if from !in db.accounts || db.accounts[from].balance < amount {
        return ValueError;
      }
      hide Credited;
      Add(from, -amount);
      Add(to, amount);
      var ok := RecordTx(Tx(from, TransferOut, amount, reference));
      ok := RecordTx(Tx(to, TransferIn, amount, reference));
      return if ok then Done else IntegrityError;
    }
  }
}
