/** Accounts and the transactions that explain their balances (server/storage/accounts.py). Money is `real`. */
module Ledger {

  import opened Common

  type Id = string

  datatype Role = Provider | Consumer

  datatype Account = Account(role: Role, balance: real)

  datatype TxKind = Deposit | Withdraw | LeaseCharge | ProviderPayout | PlatformFee | TransferIn | TransferOut

  datatype Tx = Tx(account: Id, kind: TxKind, amount: real, reference: string)

  datatype Books = Books(accounts: map<Id, Account>, transactions: seq<Tx>)

  /** How an operation ended: the exceptions the source raises are outcomes here. */
  datatype Outcome = Done | ValueError | KeyError | IntegrityError

  // ----- What the tables add up to -----

  ghost function Total(accounts: map<Id, Account>): (sum: real) {
    if accounts == map[] then 0.0
    else
      var id :| id in accounts;
      accounts[id].balance + Total(accounts - {id})
  }

  function Sign(kind: TxKind): real {
    match kind
    case Deposit | ProviderPayout | PlatformFee | TransferIn => 1.0
    case Withdraw | LeaseCharge | TransferOut => -1.0
  }

  /** The signed sum of an account's transactions. */
  function Net(transactions: seq<Tx>, id: Id): (sum: real) {
    if transactions == [] then 0.0
    else
      var last := transactions[|transactions| - 1];
      Net(transactions[..|transactions| - 1], id) + if last.account == id then Sign(last.kind) * last.amount else 0.0
  }

  lemma NetAppend(transactions: seq<Tx>, tx: Tx, id: Id)
    ensures Net(transactions + [tx], id)
         == Net(transactions, id) + if tx.account == id then Sign(tx.kind) * tx.amount else 0.0
  {
    assert (transactions + [tx])[..|transactions|] == transactions;
  }

  /** The sum does not depend on the order in which accounts are visited. */
  lemma {:induction false} TotalWithout(accounts: map<Id, Account>, id: Id)
    requires id in accounts
    ensures Total(accounts) == accounts[id].balance + Total(accounts - {id})
    decreases |accounts|
  {
    var first :| first in accounts && Total(accounts) == accounts[first].balance + Total(accounts - {first});
    if first != id {
      TotalWithout(accounts - {first}, id);
      TotalWithout(accounts - {id}, first);
      assert accounts - {first} - {id} == accounts - {id} - {first};
    }
  }

  lemma TotalUpdate(accounts: map<Id, Account>, id: Id, account: Account)
    ensures Total(accounts[id := account])
         == Total(accounts) + account.balance - if id in accounts then accounts[id].balance else 0.0
  {
    TotalWithout(accounts[id := account], id);
    if id in accounts {
      TotalWithout(accounts, id);
      assert accounts[id := account] - {id} == accounts - {id};
    } else {
      assert accounts[id := account] - {id} == accounts;
    }
  }

  // ----- Single statements -----

  /** UPDATE accounts SET balance = balance + amount WHERE account_id = id: no row, no effect. */
  function Credited(accounts: map<Id, Account>, id: Id, amount: real): (a: map<Id, Account>)
    ensures a.Keys == accounts.Keys
  {
    if id in accounts then accounts[id := accounts[id].(balance := accounts[id].balance + amount)] else accounts
  }

  function Credit(books: Books, id: Id, amount: real): Books {
    books.(accounts := Credited(books.accounts, id, amount))
  }

  /** INSERT INTO transactions. */
  function Record(books: Books, tx: Tx): Books {
    books.(transactions := books.transactions + [tx])
  }

  lemma CreditTotal(books: Books, id: Id, amount: real)
    ensures Total(Credit(books, id, amount).accounts)
         == Total(books.accounts) + if id in books.accounts then amount else 0.0
  {
    if id in books.accounts {
      TotalUpdate(books.accounts, id, books.accounts[id].(balance := books.accounts[id].balance + amount));
    }
  }

  // ----- Operations as functions of the books -----

  /** One balance change together with the row that explains it. */
  function Post(books: Books, id: Id, kind: TxKind, amount: real, reference: string): (b: Books)
    requires id in books.accounts
    ensures b.accounts.Keys == books.accounts.Keys
  {
    Record(Credit(books, id, Sign(kind) * amount), Tx(id, kind, amount, reference))
  }

  /** INSERT OR IGNORE: an existing account keeps its role and balance. */
  function Created(books: Books, id: Id, role: Role, balance: real): Books {
    if id in books.accounts then books else books.(accounts := books.accounts[id := Account(role, balance)])
  }

  function Deposited(books: Books, id: Id, amount: real): (Books, Outcome) {
    if amount <= 0.0 then (books, ValueError)
    else if id !in books.accounts then (books, KeyError)
    else (Post(books, id, Deposit, amount, ""), Done)
  }

  function Withdrawn(books: Books, id: Id, amount: real): (Books, Outcome) {
    if amount <= 0.0 then (books, ValueError)
    else if id !in books.accounts then (books, KeyError)
    else if books.accounts[id].balance < amount then (books, ValueError)
    else (Post(books, id, Withdraw, amount, ""), Done)
  }

  /** The debit happens before the recipient's row is found to be missing, and nothing takes it back. */
  function Transferred(books: Books, from: Id, to: Id, amount: real, reference: string): (Books, Outcome) {
    if amount <= 0.0 then (books, ValueError)
    else if from !in books.accounts || books.accounts[from].balance < amount then (books, ValueError)
    else
      var debited := Post(books, from, TransferOut, amount, reference);
      if to !in books.accounts then (debited, IntegrityError)
      else (Post(debited, to, TransferIn, amount, reference), Done)
  }

  const PROVIDER_SHARE := 0.95
  const PLATFORM_SHARE := 0.05
  const TREASURY: Id := "platform-treasury"

  /** What a lease that costs `due` is charged: never more than the consumer has. */
  function Charge(balance: real, due: real): real {
    if balance < due then (if balance < 0.0 then 0.0 else balance) else due
  }

  /** The cost is what is due exactly as long as the balance covers it; otherwise it is all there is, and nothing when
      there is nothing. */
  predicate Clamped(cost: real, due: real, balance: real) {
    && (due <= balance ==> cost == due)
    && (balance < due && balance >= 0.0 ==> cost == balance)
    && (balance < due && balance < 0.0 ==> cost == 0.0)
  }

  /** One amount and no other is the clamped one, and for a due that is not negative it lies between nothing and both
      the due and what the consumer has. */
  lemma ChargeClamps(balance: real, due: real, cost: real)
    ensures cost == Charge(balance, due) <==> Clamped(cost, due, balance)
    ensures due >= 0.0 && Clamped(cost, due, balance) ==>
      0.0 <= cost <= due && (cost == due <==> balance >= due || due == 0.0) && (cost <= balance || cost == 0.0)
  {
  }

  /** The settlement transaction; None when it is rolled back. */
  function Settled(books: Books, leaseId: Id, consumer: Id, provider: Id, due: real): Option<Books> {
    if consumer !in books.accounts || provider !in books.accounts || TREASURY !in books.accounts then None
    else
      var cost := Charge(books.accounts[consumer].balance, due);
      var charged := Post(books, consumer, LeaseCharge, cost, leaseId);
      var paid := Post(charged, provider, ProviderPayout, cost * PROVIDER_SHARE, leaseId);
      Some(Post(paid, TREASURY, PlatformFee, cost * PLATFORM_SHARE, leaseId))
  }

  /** A settlement commits exactly when all three accounts exist, and then it is what the statements leave in the
      order they run: all three updates, then all three inserts, of the whole charge and its 95 and 5 hundredths. */
  lemma SettledStatements(books: Books, leaseId: Id, consumer: Id, provider: Id, due: real, cost: real)
    requires consumer in books.accounts ==> Clamped(cost, due, books.accounts[consumer].balance)
    ensures Settled(books, leaseId, consumer, provider, due).Some?
       <==> consumer in books.accounts && provider in books.accounts && "platform-treasury" in books.accounts
    ensures Settled(books, leaseId, consumer, provider, due).Some? ==>
      var after := Settled(books, leaseId, consumer, provider, due).value;
      var a1 := Credited(books.accounts, consumer, -cost);
      var a2 := Credited(a1, provider, cost * 0.95);
      && after.accounts == Credited(a2, "platform-treasury", cost * 0.05)
      && after.transactions == books.transactions + [Tx(consumer, LeaseCharge, cost, leaseId)]
           + [Tx(provider, ProviderPayout, cost * 0.95, leaseId)]
           + [Tx("platform-treasury", PlatformFee, cost * 0.05, leaseId)]
  {
    hide Credited;
    if Settled(books, leaseId, consumer, provider, due).Some? {
      ChargeClamps(books.accounts[consumer].balance, due, cost);
      assert Sign(LeaseCharge) * cost == -cost;
      assert Sign(ProviderPayout) * (cost * PROVIDER_SHARE) == cost * PROVIDER_SHARE;
      assert Sign(PlatformFee) * (cost * PLATFORM_SHARE) == cost * PLATFORM_SHARE;
    }
  }

  // ----- What the operations keep -----

  /** Every balance is the opening balance plus the signed sum of the account's transactions, and every
      transaction belongs to an account. */
  ghost predicate Audited(books: Books, opening: map<Id, real>) {
    && opening.Keys == books.accounts.Keys
    && (forall id :: id in books.accounts ==> books.accounts[id].balance == opening[id] + Net(books.transactions, id))
    && forall i :: 0 <= i < |books.transactions| ==> books.transactions[i].account in books.accounts
  }

  lemma PostAudited(books: Books, opening: map<Id, real>, id: Id, kind: TxKind, amount: real, reference: string)
    requires Audited(books, opening) && id in books.accounts
    ensures Audited(Post(books, id, kind, amount, reference), opening)
  {
    var after := Post(books, id, kind, amount, reference);
    forall other | other in after.accounts
      ensures after.accounts[other].balance == opening[other] + Net(after.transactions, other)
    {
      NetAppend(books.transactions, Tx(id, kind, amount, reference), other);
    }
  }

  lemma PostTotal(books: Books, id: Id, kind: TxKind, amount: real, reference: string)
    requires id in books.accounts
    ensures Total(Post(books, id, kind, amount, reference).accounts) == Total(books.accounts) + Sign(kind) * amount
  {
    CreditTotal(books, id, Sign(kind) * amount);
  }

  /** A transaction row without an owner nets to nothing. */
  lemma {:induction false} NetOfStranger(transactions: seq<Tx>, id: Id)
    requires forall i :: 0 <= i < |transactions| ==> transactions[i].account != id
    ensures Net(transactions, id) == 0.0
  {
    if transactions != [] {
      NetOfStranger(transactions[..|transactions| - 1], id);
    }
  }

  lemma CreatedKeeps(books: Books, opening: map<Id, real>, id: Id, role: Role, balance: real)
    requires Audited(books, opening)
    ensures var b := Created(books, id, role, balance);
            && Audited(b, if id in books.accounts then opening else opening[id := balance])
            && Total(b.accounts) == Total(books.accounts) + (if id in books.accounts then 0.0 else balance)
            && b.transactions == books.transactions && id in b.accounts
            && b.accounts[id] == if id in books.accounts then books.accounts[id] else Account(role, balance)
  {
    if id !in books.accounts {
      TotalUpdate(books.accounts, id, Account(role, balance));
      NetOfStranger(books.transactions, id);
    }
  }

  /** Deposits and withdrawals are audited and move the total by exactly what they report. */
  lemma CashKeeps(books: Books, opening: map<Id, real>, id: Id, amount: real)
    requires Audited(books, opening)
    ensures var (b, o) := Deposited(books, id, amount);
            Audited(b, opening) && Total(b.accounts) == Total(books.accounts) + if o.Done? then amount else 0.0
    ensures var (b, o) := Withdrawn(books, id, amount);
            Audited(b, opening) && Total(b.accounts) == Total(books.accounts) - if o.Done? then amount else 0.0
  {
    hide Post, Audited;
    if id in books.accounts {
      PostAudited(books, opening, id, Deposit, amount, "");
      PostTotal(books, id, Deposit, amount, "");
      PostAudited(books, opening, id, Withdraw, amount, "");
      PostTotal(books, id, Withdraw, amount, "");
    }
  }

  /** What each cash operation does, outcome by outcome: one balance moves by the amount and one row says so, or
      nothing changes at all. */
  lemma CashMoves(books: Books, id: Id, amount: real)
    ensures var (b, o) := Deposited(books, id, amount);
            && (o == ValueError <==> amount <= 0.0) && (o == KeyError <==> amount > 0.0 && id !in books.accounts)
            && (o == Done <==> amount > 0.0 && id in books.accounts) && (o != Done ==> b == books)
            && (o == Done ==>
                  && b.accounts == books.accounts[id := Account(books.accounts[id].role, books.accounts[id].balance + amount)]
                  && b.transactions == books.transactions + [Tx(id, Deposit, amount, "")])
    ensures var (b, o) := Withdrawn(books, id, amount);
            && (o == Done <==> id in books.accounts && 0.0 < amount <= books.accounts[id].balance)
            && (o == KeyError <==> amount > 0.0 && id !in books.accounts)
            && (o == Done || o == KeyError || o == ValueError) && (o != Done ==> b == books)
            && (o == Done ==>
                  && b.accounts == books.accounts[id := Account(books.accounts[id].role, books.accounts[id].balance - amount)]
                  && b.transactions == books.transactions + [Tx(id, Withdraw, amount, "")])
  {
  }

  /** What a transfer does, outcome by outcome. To oneself it changes no balance and still leaves both rows. */
  lemma TransferMoves(books: Books, from: Id, to: Id, amount: real, reference: string)
    ensures var (b, o) := Transferred(books, from, to, amount, reference);
            var covered := from in books.accounts && 0.0 < amount <= books.accounts[from].balance;
            && (o == Done <==> covered && to in books.accounts) && (o == IntegrityError <==> covered && to !in books.accounts)
            && (o == ValueError <==> !covered) && (!covered ==> b == books)
            && (covered ==>
                  && b.accounts.Keys == books.accounts.Keys
                  && b.transactions == books.transactions + [Tx(from, TransferOut, amount, reference)]
                       + if to in books.accounts then [Tx(to, TransferIn, amount, reference)] else [])
            && (covered ==> forall id :: id in books.accounts ==>
                  b.accounts[id] == Account(books.accounts[id].role, books.accounts[id].balance
                                              - (if id == from then amount else 0.0) + if id == to then amount else 0.0))
  {
    if from in books.accounts {
      var debited := Post(books, from, TransferOut, amount, reference).transactions;
      assert debited + [] == debited;
    }
  }

  /** Every transfer is audited, whatever its outcome. The total is unchanged if and only if the transfer did not
      end in an integrity error; otherwise exactly `amount` is gone. */
  lemma TransferKeeps(books: Books, opening: map<Id, real>, from: Id, to: Id, amount: real, reference: string)
    requires Audited(books, opening)
    ensures var (b, o) := Transferred(books, from, to, amount, reference);
            && Audited(b, opening)
            && Total(b.accounts) == Total(books.accounts) - (if o == IntegrityError then amount else 0.0)
            && (Total(b.accounts) == Total(books.accounts) <==> o != IntegrityError)
  {
    hide Post, Audited;
    if amount > 0.0 && from in books.accounts && books.accounts[from].balance >= amount {
      PostAudited(books, opening, from, TransferOut, amount, reference);
      PostTotal(books, from, TransferOut, amount, reference);
      var debited := Post(books, from, TransferOut, amount, reference);
      if to in books.accounts {
        PostAudited(debited, opening, to, TransferIn, amount, reference);
        PostTotal(debited, to, TransferIn, amount, reference);
      }
    }
  }

  /** When exactly a transfer loses money: it passes the sender's checks and the recipient does not exist. */
  lemma TransferLoses(books: Books, from: Id, to: Id, amount: real, reference: string)
    ensures Transferred(books, from, to, amount, reference).1 == IntegrityError
       <==> amount > 0.0 && from in books.accounts && books.accounts[from].balance >= amount && to !in books.accounts
  {
  }

  /** Settling moves money between accounts and never creates or destroys any, even when consumer, provider and
      treasury are the same account; the consumer is charged what the lease costs or all it has. */
  lemma SettleKeeps(books: Books, opening: map<Id, real>, leaseId: Id, consumer: Id, provider: Id, due: real)
    requires Audited(books, opening)
    ensures var s := Settled(books, leaseId, consumer, provider, due);
            s.Some? ==> Audited(s.value, opening) && Total(s.value.accounts) == Total(books.accounts)
  {
    hide Post, Audited;
    if Settled(books, leaseId, consumer, provider, due).Some? {
      var cost := Charge(books.accounts[consumer].balance, due);
      var charged := Post(books, consumer, LeaseCharge, cost, leaseId);
      var paid := Post(charged, provider, ProviderPayout, cost * PROVIDER_SHARE, leaseId);
      PostAudited(books, opening, consumer, LeaseCharge, cost, leaseId);
      PostTotal(books, consumer, LeaseCharge, cost, leaseId);
      PostAudited(charged, opening, provider, ProviderPayout, cost * PROVIDER_SHARE, leaseId);
      PostTotal(charged, provider, ProviderPayout, cost * PROVIDER_SHARE, leaseId);
      PostAudited(paid, opening, TREASURY, PlatformFee, cost * PLATFORM_SHARE, leaseId);
      PostTotal(paid, TREASURY, PlatformFee, cost * PLATFORM_SHARE, leaseId);
    }
  }

  /** What a settlement does to each balance, also when some of the three parties are the same account. */
  lemma SettledBalances(books: Books, leaseId: Id, consumer: Id, provider: Id, due: real, cost: real, id: Id)
    requires id in books.accounts && Settled(books, leaseId, consumer, provider, due).Some?
    requires consumer in books.accounts && Clamped(cost, due, books.accounts[consumer].balance)
    ensures var after := Settled(books, leaseId, consumer, provider, due).value;
            && id in after.accounts
            && after.accounts[id].balance == books.accounts[id].balance
                 - (if id == consumer then cost else 0.0)
                 + (if id == provider then cost * 0.95 else 0.0)
                 + (if id == "platform-treasury" then cost * 0.05 else 0.0)
  {
    ChargeClamps(books.accounts[consumer].balance, due, cost);
    var charged := Post(books, consumer, LeaseCharge, cost, leaseId);
    var paid := Post(charged, provider, ProviderPayout, cost * PROVIDER_SHARE, leaseId);
    assert paid.accounts.Keys == books.accounts.Keys;
  }

  ghost predicate NonNegative(books: Books) {
    forall id :: id in books.accounts ==> books.accounts[id].balance >= 0.0
  }

  /** No operation overdraws an account. */
  lemma NothingOverdrawn(books: Books, id: Id, to: Id, amount: real, reference: string)
    requires NonNegative(books)
    ensures NonNegative(Deposited(books, id, amount).0)
    ensures NonNegative(Withdrawn(books, id, amount).0)
    ensures NonNegative(Transferred(books, id, to, amount, reference).0)
  {
  }

  /** A settlement overdraws nobody unless the price was negative; the clamp is what makes this hold. */
  lemma SettleOverdrawsNobody(books: Books, leaseId: Id, consumer: Id, provider: Id, due: real)
    requires NonNegative(books) && due >= 0.0
    ensures var s := Settled(books, leaseId, consumer, provider, due); s.Some? ==> NonNegative(s.value)
  {
  }
}
