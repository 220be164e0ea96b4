/** The marketplace as a whole: every handler is one step, and what holds in every state some run of steps reaches. */
module Marketplace {
  import opened Common
  import opened Ledger
  import opened Database
  import opened Matcher
  import opened SettlementEngine
  import opened ChainSimulator
  import opened Watcher

  /** The tables, the chain and a clock that never runs backwards. */
  datatype World = World(tables: Tables, chain: Chain, now: real)

  /** `attached` says whether the watcher was given the chain. */
  datatype Setup = Setup(rules: Rules, attached: bool)

  datatype Event =
    | Tick(seconds: real)
    | CreateAccount(id: Id, role: Role, balance: real)
    | Register(worker: Id)
    | Heartbeat(worker: Id, hashrate: real)
    | Status(worker: Id, state: string)
    | SetPricing(worker: Id, pricePerMin: real, minDuration: int, maxDuration: int)
    | Rent(request: RentRequest, scan: seq<Id>)
    | Stop(leaseId: Id)
    | WatchdogRound(order: seq<Id>)
    | DepositCash(id: Id, amount: real)
    | WithdrawCash(id: Id, amount: real)
    | Transfer(from: Id, to: Id, amount: real, reference: string)
    | BlockFound(report: Report)
    | Submit(submission: Submission)

  /** What an auditor would write down beside the tables while the run goes on. */
  datatype History = History(opening: map<Id, real>, funded: real, deposited: real, withdrawn: real, stranded: real)

  /** A watchdog event carries the order in which the query returned the expired leases; an order that does not list
      exactly those is no event at all. */
  ghost function TablesAfter(s: Setup, w: World, e: Event): Tables {
    var t := w.tables;
    match e
    case Tick(_) => t
    case CreateAccount(id, role, balance) => t.(books := Created(t.books, id, role, balance))
    case Register(worker) => Registered(t, worker)
    case Heartbeat(worker, hashrate) => HeartbeatSeen(t, worker, hashrate)
    case Status(worker, state) => WithState(t, worker, state)
    case SetPricing(worker, price, lo, hi) => Priced(t, worker, price, lo, hi)
    case Rent(r, scan) => RentedTables(t, r, scan, w.now).0
    case Stop(id) => StoppedAndSettled(t, id, w.now)
    case WatchdogRound(order) =>
      if ListsExpired(t, w.now, order) then SettledAll(Expired(t, w.now), order, w.now) else t
    case DepositCash(id, amount) => t.(books := Deposited(t.books, id, amount).0)
    case WithdrawCash(id, amount) => t.(books := Withdrawn(t.books, id, amount).0)
    case Transfer(from, to, amount, reference) => t.(books := Transferred(t.books, from, to, amount, reference).0)
    case BlockFound(r) => Reported(t, if s.attached then Some(w.chain) else None, r)
    case Submit(_) => t
  }

  ghost function Step(s: Setup, w: World, e: Event): World
    requires s.rules.interval > 0
  {
    World(TablesAfter(s, w, e),
          if e.Submit? then Submitted(w.chain, s.rules, e.submission) else w.chain,
          if e.Tick? && e.seconds > 0.0 then w.now + e.seconds else w.now)
  }

  ghost function Noted(h: History, w: World, e: Event): History {
    var b := w.tables.books;
    match e
    case CreateAccount(id, role, balance) =>
      if id in b.accounts then h else h.(opening := h.opening[id := balance], funded := h.funded + balance)
    case Register(worker) =>
      if worker in b.accounts then h else h.(opening := h.opening[worker := 0.0])
    case DepositCash(id, amount) =>
      if Deposited(b, id, amount).1.Done? then h.(deposited := h.deposited + amount) else h
    case WithdrawCash(id, amount) =>
      if Withdrawn(b, id, amount).1.Done? then h.(withdrawn := h.withdrawn + amount) else h
    case Transfer(from, to, amount, reference) =>
      if Transferred(b, from, to, amount, reference).1.IntegrityError? then h.(stranded := h.stranded + amount) else h
    case _ => h
  }

  /** After setup_defaults of the settlement engine: only the treasury exists. */
  function Initial(difficulty: int): World {
    World(Tables(Books(map[TREASURY := Account(Consumer, 0.0)], []), map[], map[], map[], []),
          Chain([], 1, map[], {}, difficulty), 0.0)
  }

  function EmptyHistory(): History {
    History(map[TREASURY := 0.0], 0.0, 0.0, 0.0, 0.0)
  }

  ghost function Run(s: Setup, difficulty: int, events: seq<Event>): (World, History)
    requires s.rules.interval > 0
  {
    if events == [] then (Initial(difficulty), EmptyHistory())
    else
      var (w, h) := Run(s, difficulty, events[..|events| - 1]);
      var e := events[|events| - 1];
      (Step(s, w, e), Noted(h, w, e))
  }

  // ----- Money -----

  /** The books are audited, and the balances add up to what came in minus what went out minus what was stranded. */
  ghost predicate Balanced(b: Books, h: History) {
    && Audited(b, h.opening)
    && Total(b.accounts) == h.funded + h.deposited - h.withdrawn - h.stranded
  }

  lemma SettleAllKeeps(t: Tables, h: History, list: seq<Id>, now: real)
    requires Balanced(t.books, h) && forall id :: id in list ==> id in t.leases
    ensures Balanced(SettledAll(t, list, now).books, h)
    decreases |list|
  {
    hide Audited, Settled;
    if list != [] {
      var lease := t.leases[list[0]];
      SettleKeeps(t.books, h.opening, list[0], lease.consumer, lease.worker, Due(lease, now));
      var (s, o) := SettledTables(t, list[0], lease, now);
      if !o.Duplicate? {
        SettleAllKeeps(s, h, list[1..], now);
      }
    }
  }

  /** Every step keeps the books balanced. */
  lemma MoneyStep(s: Setup, w: World, h: History, e: Event)
    requires Balanced(w.tables.books, h)
    ensures Balanced(TablesAfter(s, w, e).books, Noted(h, w, e))
  {
    hide Audited, Settled, SettledAll, SettledTables, Expired, ListsExpired, HeartbeatSeen, Pick, RowFor;
    var t := w.tables;
    match e
    case Tick(_) =>
    case CreateAccount(id, role, balance) => CreatedKeeps(t.books, h.opening, id, role, balance);
    case Register(worker) => CreatedKeeps(t.books, h.opening, worker, Provider, 0.0);
    case Heartbeat(worker, hashrate) => HeartbeatFrame(t, worker, hashrate);
    case Status(worker, state) =>
    case SetPricing(worker, price, lo, hi) =>
    case Rent(r, scan) => RentFrame(t, r, scan, w.now);
    case Stop(id) =>
      StopFrame(t, id, w.now);
      StopMoney(t, h, id, w.now);
    case WatchdogRound(order) =>
      if ListsExpired(t, w.now, order) {
        ExpireFrame(t, order, w.now);
        SettleAllKeeps(Expired(t, w.now), h, order, w.now);
      }
    case DepositCash(id, amount) => CashKeeps(t.books, h.opening, id, amount);
    case WithdrawCash(id, amount) => CashKeeps(t.books, h.opening, id, amount);
    case Transfer(from, to, amount, reference) => TransferKeeps(t.books, h.opening, from, to, amount, reference);
    case BlockFound(r) => ReportFrame(t, if s.attached then Some(w.chain) else None, r);
    case Submit(_) =>
  }

  // ----- What each handler leaves alone -----

  lemma HeartbeatFrame(t: Tables, worker: Id, hashrate: real)
    ensures var a := HeartbeatSeen(t, worker, hashrate);
            a.books == t.books && a.settlements == t.settlements && a.blocks == t.blocks
            && a.leases.Keys == t.leases.Keys && a.workers.Keys == t.workers.Keys
  {
  }

  lemma RentFrame(t: Tables, r: RentRequest, scan: seq<Id>, now: real)
    ensures var a := RentedTables(t, r, scan, now).0;
            a.books == t.books && a.settlements == t.settlements && a.blocks == t.blocks && a.workers.Keys == t.workers.Keys
  {
  }

  lemma StopFrame(t: Tables, id: Id, now: real)
    ensures var a := Stopped(t, id, now).0;
            a.books == t.books && a.settlements == t.settlements && a.blocks == t.blocks
            && a.leases.Keys == t.leases.Keys && a.workers.Keys == t.workers.Keys
  {
  }

  lemma ExpireFrame(t: Tables, order: seq<Id>, now: real)
    requires ListsExpired(t, now, order)
    ensures var a := Expired(t, now);
            a.books == t.books && a.settlements == t.settlements && a.blocks == t.blocks
            && a.leases.Keys == t.leases.Keys && a.workers.Keys == t.workers.Keys
            && forall id :: id in order ==> id in a.leases
  {
  }

  lemma ReportFrame(t: Tables, chain: Option<Chain>, r: Report)
    ensures var a := Reported(t, chain, r);
            a.books == t.books && a.settlements == t.settlements
            && a.leases.Keys == t.leases.Keys && a.workers.Keys == t.workers.Keys
  {
    hide Lookup;
  }

  lemma StopMoney(t: Tables, h: History, id: Id, now: real)
    requires Balanced(t.books, h)
    ensures Balanced(StoppedAndSettled(t, id, now).books, h)
  {
    hide Audited, Settled;
    var (stopped, ok) := Stopped(t, id, now);
    if ok {
      var lease := stopped.leases[id];
      SettleKeeps(stopped.books, h.opening, id, lease.consumer, lease.worker, Due(lease, now));
    }
  }

  // ----- Constraints -----

  /** The schema's constraints, and the accounts a settlement needs: every worker's and the treasury's. */
  ghost predicate Related(t: Tables) {
    && Constraints(t)
    && TREASURY in t.books.accounts
    && forall w :: w in t.workers ==> w in t.books.accounts
  }

  lemma SameLeases(t: Tables, a: Tables)
    requires Constraints(t) && a.leases == t.leases && a.settlements == t.settlements
    requires t.workers.Keys <= a.workers.Keys && t.books.accounts.Keys <= a.books.accounts.Keys
    requires forall i :: 0 <= i < |a.books.transactions| ==> a.books.transactions[i].account in a.books.accounts
    ensures Constraints(a)
  {
  }

  /** Leases that keep worker, consumer and state keep exclusivity. */
  lemma SameParties(t: Tables, a: Tables)
    requires Constraints(t) && a.leases.Keys == t.leases.Keys && a.settlements == t.settlements
    requires forall id :: id in t.leases ==>
      a.leases[id].worker == t.leases[id].worker && a.leases[id].consumer == t.leases[id].consumer
      && a.leases[id].state == t.leases[id].state
    requires t.workers.Keys == a.workers.Keys && t.books == a.books
    ensures Constraints(a)
  {
    forall x, y, w | IsActiveLease(a.leases, x, w) && IsActiveLease(a.leases, y, w) ensures x == y {
      assert IsActiveLease(t.leases, x, w) && IsActiveLease(t.leases, y, w);
    }
  }

  lemma SettleRelated(t: Tables, id: Id, lease: Lease, now: real)
    requires Related(t)
    ensures Related(SettledTables(t, id, lease, now).0)
    ensures SettledTables(t, id, lease, now).0.leases == t.leases
    ensures SettledTables(t, id, lease, now).0.workers == t.workers
    ensures SettledTables(t, id, lease, now).0.blocks == t.blocks
    ensures SettledTables(t, id, lease, now).0.books.accounts.Keys == t.books.accounts.Keys
  {
    hide Settled, Credited;
    var due := Due(lease, now);
    var cost := if lease.consumer in t.books.accounts then Charge(t.books.accounts[lease.consumer].balance, due) else due;
    SettledStatements(t.books, id, lease.consumer, lease.worker, due, cost);
    SettledKeys(t.books, id, lease.consumer, lease.worker, Due(lease, now));
  }

  lemma SettledKeys(books: Books, id: Id, consumer: Id, provider: Id, due: real)
    ensures var s := Settled(books, id, consumer, provider, due);
            s.Some? ==> s.value.accounts.Keys == books.accounts.Keys
  {
    hide Credited;
  }

  lemma SettleAllRelated(t: Tables, list: seq<Id>, now: real)
    requires Related(t) && forall id :: id in list ==> id in t.leases
    ensures Related(SettledAll(t, list, now))
    decreases |list|
  {
    hide Related, SettledTables;
    if list != [] {
      var lease := t.leases[list[0]];
      SettleRelated(t, list[0], lease, now);
      var (s, o) := SettledTables(t, list[0], lease, now);
      if !o.Duplicate? {
        SettleAllRelated(s, list[1..], now);
      }
    }
  }

  /** Changes that leave the leases alone and only add accounts, workers with accounts and owned transactions. */
  lemma RelatedGrows(t: Tables, a: Tables)
    requires Related(t) && a.leases == t.leases && a.settlements == t.settlements
    requires t.workers.Keys <= a.workers.Keys && t.books.accounts.Keys <= a.books.accounts.Keys
    requires forall w :: w in a.workers && w !in t.workers ==> w in a.books.accounts
    requires forall i :: 0 <= i < |a.books.transactions| ==> a.books.transactions[i].account in a.books.accounts
    ensures Related(a)
  {
    hide Exclusive;
    SameLeases(t, a);
  }

  /** No account disappears, and every transaction belongs to one. */
  ghost predicate Grown(b: Books, a: Books) {
    && b.accounts.Keys <= a.accounts.Keys
    && forall i :: 0 <= i < |a.transactions| ==> a.transactions[i].account in a.accounts
  }

  lemma OwnedTransactions(b: Books, id: Id, to: Id, role: Role, amount: real, reference: string)
    requires forall i :: 0 <= i < |b.transactions| ==> b.transactions[i].account in b.accounts
    ensures Grown(b, Created(b, id, role, amount)) && Grown(b, Deposited(b, id, amount).0)
    ensures Grown(b, Withdrawn(b, id, amount).0) && Grown(b, Transferred(b, id, to, amount, reference).0)
  {
    hide Credited;
  }

  lemma BooksRelated(t: Tables, b: Books)
    requires Related(t) && Grown(t.books, b)
    ensures Related(t.(books := b))
  {
    hide Exclusive;
    RelatedGrows(t, t.(books := b));
  }

  lemma TransactionsOwned(t: Tables)
    requires Related(t)
    ensures forall i :: 0 <= i < |t.books.transactions| ==> t.books.transactions[i].account in t.books.accounts
  {
    hide Exclusive;
  }

  lemma WorkersRelated(t: Tables, id: Id, state: string, pricePerMin: real, minDuration: int, maxDuration: int)
    requires Related(t)
    ensures Related(Registered(t, id)) && Related(WithState(t, id, state))
    ensures Related(Priced(t, id, pricePerMin, minDuration, maxDuration))
  {
    hide Exclusive;
    RelatedGrows(t, Registered(t, id));
    RelatedGrows(t, WithState(t, id, state));
    RelatedGrows(t, Priced(t, id, pricePerMin, minDuration, maxDuration));
  }

  lemma LeasesRelated(t: Tables, a: Tables)
    requires Related(t) && Constraints(a) && a.books == t.books && a.workers.Keys == t.workers.Keys
    ensures Related(a)
  {
    hide Constraints;
  }

  lemma RelatedConstraints(t: Tables)
    requires Related(t)
    ensures Constraints(t)
  {
  }

  /** Every step keeps the constraints; in particular no worker ever has two active leases. */
  lemma RelatedStep(s: Setup, w: World, e: Event)
    requires Related(w.tables)
    ensures Related(TablesAfter(s, w, e))
  {
    hide Settled, SettledAll, SettledTables, Expired, ListsExpired, HeartbeatSeen, Stopped, StoppedAndSettled, RentedTables,
      Registered, WithState, Priced, Reported, Related, Constraints, Created, Deposited, Withdrawn, Transferred, Grown;
    var t, a := w.tables, TablesAfter(s, w, e);
    RelatedConstraints(t);
    TransactionsOwned(t);
    match e
    case Tick(_) =>
    case CreateAccount(id, role, balance) =>
      OwnedTransactions(t.books, id, id, role, balance, "");
      BooksRelated(t, a.books);
    case Register(worker) => WorkersRelated(t, worker, "", 0.0, 0, 0);
    case Heartbeat(worker, hashrate) =>
      HeartbeatFrame(t, worker, hashrate);
      HeartbeatParties(t, worker, hashrate);
      LeasesRelated(t, a);
    case Status(worker, state) => WorkersRelated(t, worker, state, 0.0, 0, 0);
    case SetPricing(worker, price, lo, hi) => WorkersRelated(t, worker, "", price, lo, hi);
    case Rent(r, scan) =>
      RentFrame(t, r, scan, w.now);
      RentKeepsConstraints(t, r, scan, w.now);
      LeasesRelated(t, a);
    case Stop(id) => StopSettleRelated(t, id, w.now);
    case WatchdogRound(order) =>
      if ListsExpired(t, w.now, order) {
        ExpireFrame(t, order, w.now);
        ExpireRelated(t, order, w.now);
        SettleAllRelated(Expired(t, w.now), order, w.now);
      }
    case DepositCash(id, amount) =>
      OwnedTransactions(t.books, id, id, Provider, amount, "");
      BooksRelated(t, a.books);
    case WithdrawCash(id, amount) =>
      OwnedTransactions(t.books, id, id, Provider, amount, "");
      BooksRelated(t, a.books);
    case Transfer(from, to, amount, reference) =>
      OwnedTransactions(t.books, from, to, Provider, amount, reference);
      BooksRelated(t, a.books);
    case BlockFound(r) =>
      ReportFrame(t, if s.attached then Some(w.chain) else None, r);
      ReportParties(t, if s.attached then Some(w.chain) else None, r);
      LeasesRelated(t, a);
    case Submit(_) =>
  }

  lemma StopSettleRelated(t: Tables, id: Id, now: real)
    requires Related(t)
    ensures Related(StoppedAndSettled(t, id, now))
  {
    hide SettledTables, Related, Stopped;
    StopKeepsLease(t, id, now);
    if Stopped(t, id, now).1 {
      StopRelated(t, id, now);
      SettleRelated(Stopped(t, id, now).0, id, Stopped(t, id, now).0.leases[id], now);
    }
  }

  lemma HeartbeatParties(t: Tables, worker: Id, hashrate: real)
    requires Constraints(t)
    ensures Constraints(HeartbeatSeen(t, worker, hashrate))
  {
    hide Exclusive;
    SameParties(t, HeartbeatSeen(t, worker, hashrate));
  }

  lemma ReportParties(t: Tables, chain: Option<Chain>, r: Report)
    requires Constraints(t)
    ensures Constraints(Reported(t, chain, r))
  {
    hide Exclusive, Lookup;
    SameParties(t, Reported(t, chain, r));
  }

  // ----- Settlement exactly once -----

  /** How often a lease was charged. */
  function Charges(transactions: seq<Tx>, id: Id): nat {
    if transactions == [] then 0
    else
      var last := transactions[|transactions| - 1];
      Charges(transactions[..|transactions| - 1], id) + if last.kind == LeaseCharge && last.reference == id then 1 else 0
  }

  lemma ChargesAppend(transactions: seq<Tx>, tx: Tx, id: Id)
    ensures Charges(transactions + [tx], id)
         == Charges(transactions, id) + if tx.kind == LeaseCharge && tx.reference == id then 1 else 0
  {
    assert (transactions + [tx])[..|transactions|] == transactions;
  }

  /** Apart from the leases still in `pending`, a lease has a settlement exactly when it has ended; a settled lease
      was charged exactly once and any other id never. */
  ghost predicate SettledBut(t: Tables, pending: seq<Id>) {
    && (forall id :: Charges(t.books.transactions, id) == if id in t.settlements then 1 else 0)
    && (forall id :: id in t.leases ==> (id in t.settlements <==> t.leases[id].state != Active && id !in pending))
  }

  /** What `seconds` at a price per second come to. */
  function FullCost(seconds: real, pricePerSec: real): real {
    seconds * pricePerSec
  }

  /** The `k`-th transaction is the whole charge, and the next two split it. The charge is what is
      due as long as the consumer's balance at that moment, the opening balance with all transactions so far, covers
      it, and otherwise what the consumer has. */
  ghost predicate ChargedAt(transactions: seq<Tx>, opening: real, r: Settlement, due: real, id: Id, k: nat) {
    && k + 2 < |transactions|
    && transactions[k] == Tx(r.consumer, LeaseCharge, r.totalCost, id)
    && transactions[k + 1] == Tx(r.worker, ProviderPayout, r.payout, id)
    && transactions[k + 2] == Tx("platform-treasury", PlatformFee, r.fee, id)
    && Clamped(r.totalCost, due, opening + Net(transactions[..k], r.consumer))
  }

  ghost predicate IsCharged(transactions: seq<Tx>, opening: real, r: Settlement, due: real, id: Id) {
    exists k: nat :: ChargedAt(transactions, opening, r, due, id, k)
  }

  /** The settlement record of an ended lease: its parties, how long it lasted, and the three transactions that split
      the one charge; what is due is how long the lease lasted times its price. */
  ghost predicate Explained(t: Tables, opening: map<Id, real>, id: Id)
    requires id in t.settlements
  {
    var r := t.settlements[id];
    && id in t.leases && r.consumer == t.leases[id].consumer && r.worker == t.leases[id].worker
    && t.leases[id].endedAt.Some? && r.duration == t.leases[id].endedAt.value - t.leases[id].createdAt
    && r.blocksFound <= t.leases[id].blocksFound
    && r.payout == r.totalCost * 0.95 && r.fee == r.totalCost * 0.05
    && r.consumer in opening
    && IsCharged(t.books.transactions, opening[r.consumer], r, FullCost(r.duration, t.leases[id].pricePerSec), id)
  }

  ghost predicate AllExplained(t: Tables, opening: map<Id, real>) {
    forall id :: id in t.settlements ==> Explained(t, opening, id)
  }

  /** A record stays explained while rows are only appended, accounts only opened and the lease only moves forward. */
  lemma ExplainedStays(t: Tables, a: Tables, before: map<Id, real>, after: map<Id, real>, id: Id)
    requires id in t.settlements && Explained(t, before, id) && t.leases[id].state != Active
    requires id in a.settlements && a.settlements[id] == t.settlements[id]
    requires id in a.leases && Evolves(t.leases[id], a.leases[id])
    requires t.books.transactions <= a.books.transactions && Extends(before, after)
    ensures Explained(a, after, id)
  {
    hide Clamped, Net, FullCost;
    var r, due := t.settlements[id], FullCost(t.settlements[id].duration, t.leases[id].pricePerSec);
    var k: nat :| ChargedAt(t.books.transactions, before[r.consumer], r, due, id, k);
    assert a.books.transactions[..k] == t.books.transactions[..k];
    assert ChargedAt(a.books.transactions, after[r.consumer], r, due, id, k);
  }

  ghost predicate Extends(before: map<Id, real>, after: map<Id, real>) {
    forall id :: id in before ==> id in after && after[id] == before[id]
  }

  /** What a successful settlement adds: the record, written out, and its three rows. */
  lemma SettleEffect(t: Tables, id: Id, now: real)
    requires Related(t) && id in t.leases && id !in t.settlements
    ensures var lease := t.leases[id];
            var (s, o) := SettledTables(t, id, lease, now);
            && o == Charged && s.leases == t.leases && s.workers == t.workers && s.blocks == t.blocks
            && id in s.settlements && s.settlements == t.settlements[id := s.settlements[id]]
            && var r := s.settlements[id];
               var seconds := (if lease.endedAt.Some? then lease.endedAt.value else now) - lease.createdAt;
               && Clamped(r.totalCost, FullCost(seconds, lease.pricePerSec), t.books.accounts[lease.consumer].balance)
               && r == Settlement(lease.consumer, lease.worker, seconds, lease.blocksFound,
                                  r.totalCost, r.totalCost * 0.95, r.totalCost * 0.05)
               && s.books.transactions == t.books.transactions + [Tx(lease.consumer, LeaseCharge, r.totalCost, id)]
                    + [Tx(lease.worker, ProviderPayout, r.totalCost * 0.95, id)]
                    + [Tx("platform-treasury", PlatformFee, r.totalCost * 0.05, id)]
  {
    hide Settled, Credited, Exclusive, Due, FullCost;
    var lease := t.leases[id];
    DueIs(lease, now);
    var cost := RecordOf(t, lease, now).totalCost;
    ChargeClamps(t.books.accounts[lease.consumer].balance, Due(lease, now), cost);
    SettledStatements(t.books, id, lease.consumer, lease.worker, Due(lease, now), cost);
  }

  lemma DueIs(lease: Lease, now: real)
    ensures Due(lease, now)
         == FullCost((if lease.endedAt.Some? then lease.endedAt.value else now) - lease.createdAt, lease.pricePerSec)
  {
  }

  lemma SettleCharges(t: Tables, id: Id, now: real)
    requires Related(t) && id in t.leases && id !in t.settlements
    ensures var s := SettledTables(t, id, t.leases[id], now).0;
            && s.leases == t.leases && s.settlements.Keys == t.settlements.Keys + {id}
            && forall other :: Charges(s.books.transactions, other)
                            == Charges(t.books.transactions, other) + if other == id then 1 else 0
  {
    hide SettledTables, Related, Clamped, Charges;
    SettleEffect(t, id, now);
    var s := SettledTables(t, id, t.leases[id], now).0;
    var r := s.settlements[id];
    assert s.settlements.Keys == t.settlements.Keys + {id};
    var charge, payout := Tx(r.consumer, LeaseCharge, r.totalCost, id), Tx(r.worker, ProviderPayout, r.totalCost * 0.95, id);
    var fee := Tx("platform-treasury", PlatformFee, r.totalCost * 0.05, id);
    assert s.books.transactions == t.books.transactions + [charge] + [payout] + [fee];
    ThreeMore(t.books.transactions, charge, payout, fee);
    forall other
      ensures Charges(s.books.transactions, other) == Charges(t.books.transactions, other) + if other == id then 1 else 0
    {
      assert charge.reference == id;
    }
  }

  lemma SettleOneCharge(t: Tables, pending: seq<Id>, id: Id, now: real)
    requires Related(t) && SettledBut(t, [id] + pending)
    requires id in t.leases && t.leases[id].state != Active && id !in pending
    ensures id !in t.settlements && SettledBut(SettledTables(t, id, t.leases[id], now).0, pending)
  {
    hide SettledTables, Related, Charges;
    assert id in [id] + pending;
    SettleCharges(t, id, now);
    assert forall other :: other in [id] + pending <==> other == id || other in pending;
  }

  /** Every lease with a record has ended. */
  ghost predicate EndedOnly(t: Tables) {
    forall id :: id in t.settlements && id in t.leases ==> t.leases[id].state != Active
  }

  lemma Opened(t: Tables, opening: map<Id, real>, id: Id)
    requires Related(t) && Audited(t.books, opening) && id in t.leases
    ensures var c := t.leases[id].consumer;
            c in opening && c in t.books.accounts
            && t.books.accounts[c].balance == opening[c] + Net(t.books.transactions, c)
  {
    hide Net, Exclusive;
  }

  lemma LastThree(before: seq<Tx>, a: Tx, b: Tx, c: Tx)
    ensures var after, n := before + [a] + [b] + [c], |before|;
            |after| == n + 3 && after[..n] == before && after[n] == a && after[n + 1] == b && after[n + 2] == c
  {
  }

  lemma ChargedLast(before: seq<Tx>, opening: real, r: Settlement, due: real, id: Id)
    requires Clamped(r.totalCost, due, opening + Net(before, r.consumer))
    ensures IsCharged(before + [Tx(r.consumer, LeaseCharge, r.totalCost, id)] + [Tx(r.worker, ProviderPayout, r.payout, id)]
                        + [Tx("platform-treasury", PlatformFee, r.fee, id)], opening, r, due, id)
  {
    hide Clamped, Net;
    var a, b := Tx(r.consumer, LeaseCharge, r.totalCost, id), Tx(r.worker, ProviderPayout, r.payout, id);
    var c := Tx("platform-treasury", PlatformFee, r.fee, id);
    LastThree(before, a, b, c);
    assert ChargedAt(before + [a] + [b] + [c], opening, r, due, id, |before|);
  }

  lemma SettleOneRecord(t: Tables, opening: map<Id, real>, id: Id, now: real)
    requires Related(t) && Audited(t.books, opening) && AllExplained(t, opening) && EndedOnly(t)
    requires id in t.leases && id !in t.settlements && t.leases[id].endedAt.Some?
    ensures AllExplained(SettledTables(t, id, t.leases[id], now).0, opening)
  {
    hide SettledTables, Related, Charges, Clamped, Net, FullCost;
    SettleEffect(t, id, now);
    var s, r := SettledTables(t, id, t.leases[id], now).0, SettledTables(t, id, t.leases[id], now).0.settlements[id];
    Opened(t, opening, id);
    ChargedLast(t.books.transactions, opening[r.consumer], r, FullCost(r.duration, t.leases[id].pricePerSec), id);
    forall other | other in s.settlements ensures Explained(s, opening, other) {
      if other != id {
        assert Explained(t, opening, other);
        ExplainedStays(t, s, opening, opening, other);
      }
    }
  }

  /** Settling one ended lease, all accounts being there, always succeeds and takes exactly it off the pending list. */
  lemma SettleOne(t: Tables, opening: map<Id, real>, pending: seq<Id>, id: Id, now: real)
    requires Related(t) && Audited(t.books, opening) && AllExplained(t, opening) && SettledBut(t, [id] + pending)
    requires id in t.leases && t.leases[id].state != Active && t.leases[id].endedAt.Some? && id !in pending
    ensures var (s, o) := SettledTables(t, id, t.leases[id], now);
            o == Charged && SettledBut(s, pending) && AllExplained(s, opening) && Audited(s.books, opening)
  {
    hide SettledTables, SettledBut, AllExplained, Related, Audited;
    SettleOneCharge(t, pending, id, now);
    RecordsEnded(t, [id] + pending);
    SettleOneRecord(t, opening, id, now);
    SettleEffect(t, id, now);
    SettleAudited(t, opening, id, now);
  }

  lemma SettleAudited(t: Tables, opening: map<Id, real>, id: Id, now: real)
    requires Audited(t.books, opening) && id in t.leases
    ensures Audited(SettledTables(t, id, t.leases[id], now).0.books, opening)
  {
    hide Audited, Settled;
    var lease := t.leases[id];
    SettleKeeps(t.books, opening, id, lease.consumer, lease.worker, Due(lease, now));
  }

  lemma RecordsEnded(t: Tables, pending: seq<Id>)
    requires SettledBut(t, pending)
    ensures EndedOnly(t)
  {
  }

  lemma ThreeMore(transactions: seq<Tx>, charge: Tx, payout: Tx, fee: Tx)
    requires charge.kind == LeaseCharge && payout.kind != LeaseCharge && fee.kind != LeaseCharge
    ensures forall id :: Charges(transactions + [charge] + [payout] + [fee], id)
                      == Charges(transactions, id) + if charge.reference == id then 1 else 0
    ensures var all := transactions + [charge] + [payout] + [fee];
            charge in all && payout in all && fee in all && forall tx :: tx in transactions ==> tx in all
  {
    forall id
      ensures Charges(transactions + [charge] + [payout] + [fee], id)
           == Charges(transactions, id) + if charge.reference == id then 1 else 0
    {
      ChargesAppend(transactions, charge, id);
      ChargesAppend(transactions + [charge], payout, id);
      ChargesAppend(transactions + [charge] + [payout], fee, id);
    }
  }

  lemma SettleEach(t: Tables, opening: map<Id, real>, list: seq<Id>, now: real)
    requires Related(t) && Audited(t.books, opening) && AllExplained(t, opening) && SettledBut(t, list)
    requires forall i, j :: 0 <= i < j < |list| ==> list[i] != list[j]
    requires forall id :: id in list ==> id in t.leases && t.leases[id].state != Active && t.leases[id].endedAt.Some?
    ensures SettledBut(SettledAll(t, list, now), []) && AllExplained(SettledAll(t, list, now), opening)
    decreases |list|
  {
    hide Related, SettledBut, AllExplained, SettledTables, Audited;
    if list != [] {
      assert list == [list[0]] + list[1..];
      SettleOne(t, opening, list[1..], list[0], now);
      SettleRelated(t, list[0], t.leases[list[0]], now);
      SettleEach(SettledTables(t, list[0], t.leases[list[0]], now).0, opening, list[1..], now);
    }
  }

  /** Nothing the settlement invariant reads has changed, except that accounts may have been opened and other kinds of
      transactions appended. */
  lemma UnsettledFrame(t: Tables, a: Tables, before: map<Id, real>, after: map<Id, real>)
    requires SettledBut(t, []) && AllExplained(t, before) && a.settlements == t.settlements && a.leases.Keys == t.leases.Keys
    requires forall id :: id in t.leases ==> Evolves(t.leases[id], a.leases[id]) && a.leases[id].state == t.leases[id].state
    requires SameCharges(t.books, a.books) && Extends(before, after)
    ensures SettledBut(a, []) && AllExplained(a, after)
  {
    hide Clamped, Net, FullCost, IsCharged, Evolves, Charges;
    forall id | id in a.settlements ensures Explained(a, after, id) {
      assert Explained(t, before, id);
      ExplainedStays(t, a, before, after, id);
    }
  }

  /** Transactions were added, none of them a charge. */
  ghost predicate SameCharges(b: Books, a: Books) {
    && (forall l :: Charges(a.transactions, l) == Charges(b.transactions, l))
    && b.transactions <= a.transactions
  }

  lemma PostCharges(b: Books, id: Id, kind: TxKind, amount: real, reference: string)
    requires id in b.accounts && kind != LeaseCharge
    ensures SameCharges(b, Post(b, id, kind, amount, reference))
  {
    hide Credited, Charges;
    var tx := Tx(id, kind, amount, reference);
    assert Post(b, id, kind, amount, reference).transactions == b.transactions + [tx];
    forall l ensures Charges(b.transactions + [tx], l) == Charges(b.transactions, l) {
      ChargesAppend(b.transactions, tx, l);
    }
  }

  lemma CashCharges(b: Books, id: Id, to: Id, amount: real, reference: string)
    ensures SameCharges(b, Deposited(b, id, amount).0)
    ensures SameCharges(b, Withdrawn(b, id, amount).0)
    ensures SameCharges(b, Transferred(b, id, to, amount, reference).0)
  {
    hide Post, Charges;
    if id in b.accounts {
      PostCharges(b, id, Deposit, amount, "");
      PostCharges(b, id, Withdraw, amount, "");
      PostCharges(b, id, TransferOut, amount, reference);
      var debited := Post(b, id, TransferOut, amount, reference);
      if to in debited.accounts {
        PostCharges(debited, to, TransferIn, amount, reference);
      }
    }
  }

  lemma RentUnsettled(t: Tables, opening: map<Id, real>, r: RentRequest, scan: seq<Id>, now: real)
    requires Related(t) && SettledBut(t, []) && AllExplained(t, opening)
    ensures SettledBut(RentedTables(t, r, scan, now).0, []) && AllExplained(RentedTables(t, r, scan, now).0, opening)
  {
    hide Pick, Exclusive, Explained, Evolves, Charges;
    var a := RentedTables(t, r, scan, now).0;
    SameLeasesEvolve(t.leases);
    forall id | id in a.settlements ensures Explained(a, opening, id) {
      assert Explained(t, opening, id);
      ExplainedStays(t, a, opening, opening, id);
    }
  }

  lemma StopPending(t: Tables, opening: map<Id, real>, id: Id, now: real)
    requires SettledBut(t, []) && AllExplained(t, opening) && Stopped(t, id, now).1
    ensures SettledBut(Stopped(t, id, now).0, [id]) && AllExplained(Stopped(t, id, now).0, opening)
    ensures Stopped(t, id, now).0.leases[id].endedAt.Some?
  {
    hide IsCharged, FullCost;
    var a := Stopped(t, id, now).0;
    forall other | other in a.settlements ensures Explained(a, opening, other) {
      assert Explained(t, opening, other);
      ExplainedStays(t, a, opening, opening, other);
    }
  }

  lemma ExpirePending(t: Tables, opening: map<Id, real>, order: seq<Id>, now: real)
    requires SettledBut(t, []) && AllExplained(t, opening) && ListsExpired(t, now, order)
    ensures SettledBut(Expired(t, now), order) && AllExplained(Expired(t, now), opening)
    ensures var a := Expired(t, now).leases;
            forall id :: id in order ==> id in a && a[id].state != Active && a[id].endedAt.Some?
  {
    hide IsCharged, FullCost;
    var a := Expired(t, now);
    forall other | other in a.settlements ensures Explained(a, opening, other) {
      assert Explained(t, opening, other);
      ExplainedStays(t, a, opening, opening, other);
    }
  }

  lemma NotedExtends(h: History, w: World, e: Event)
    requires Audited(w.tables.books, h.opening)
    ensures Extends(h.opening, Noted(h, w, e).opening)
  {
    hide Net, Total;
  }

  lemma SameLeasesEvolve(leases: map<Id, Lease>)
    ensures forall id :: id in leases ==> Evolves(leases[id], leases[id])
  {
  }

  /** Every step keeps it: a lease is charged once, in the step that ends it, and never again. */
  lemma SettlementStep(s: Setup, w: World, h: History, e: Event)
    requires Related(w.tables) && Audited(w.tables.books, h.opening)
    requires SettledBut(w.tables, []) && AllExplained(w.tables, h.opening)
    ensures SettledBut(TablesAfter(s, w, e), []) && AllExplained(TablesAfter(s, w, e), Noted(h, w, e).opening)
  {
    hide Settled, SettledAll, SettledTables, Expired, ListsExpired, HeartbeatSeen, Stopped, RentedTables, Reported,
      SettledBut, AllExplained, Related, Deposited, Withdrawn, Transferred, Audited, Noted, Extends, Evolves;
    var t, a, after := w.tables, TablesAfter(s, w, e), Noted(h, w, e).opening;
    NotedExtends(h, w, e);
    SameLeasesEvolve(t.leases);
    match e
    case Tick(_) => UnsettledFrame(t, a, h.opening, after);
    case CreateAccount(id, role, balance) => UnsettledFrame(t, a, h.opening, after);
    case Register(worker) => UnsettledFrame(t, a, h.opening, after);
    case Heartbeat(worker, hashrate) =>
      HeartbeatFrame(t, worker, hashrate);
      HeartbeatLeases(t, worker, hashrate);
      UnsettledFrame(t, a, h.opening, after);
    case Status(worker, state) => UnsettledFrame(t, a, h.opening, after);
    case SetPricing(worker, price, lo, hi) => UnsettledFrame(t, a, h.opening, after);
    case Rent(r, scan) =>
      RentUnsettled(t, h.opening, r, scan, w.now);
      NotedSame(h, w, e);
    case Stop(id) => StopUnsettled(t, h.opening, id, w.now);
      NotedSame(h, w, e);
    case WatchdogRound(order) =>
      RoundUnsettled(s, w, h.opening, order);
      NotedSame(h, w, e);
    case DepositCash(id, amount) =>
      CashCharges(t.books, id, id, amount, "");
      UnsettledFrame(t, a, h.opening, after);
    case WithdrawCash(id, amount) =>
      CashCharges(t.books, id, id, amount, "");
      UnsettledFrame(t, a, h.opening, after);
    case Transfer(from, to, amount, reference) =>
      CashCharges(t.books, from, to, amount, reference);
      UnsettledFrame(t, a, h.opening, after);
    case BlockFound(r) =>
      ReportFrame(t, if s.attached then Some(w.chain) else None, r);
      ReportLeases(t, if s.attached then Some(w.chain) else None, r);
      ReportEvolves(t, if s.attached then Some(w.chain) else None, r);
      UnsettledFrame(t, a, h.opening, after);
    case Submit(_) => UnsettledFrame(t, a, h.opening, after);
  }

  lemma NotedSame(h: History, w: World, e: Event)
    requires e.Rent? || e.Stop? || e.WatchdogRound?
    ensures Noted(h, w, e) == h
  {
  }

  lemma ReportEvolves(t: Tables, chain: Option<Chain>, r: Report)
    ensures var a := Reported(t, chain, r).leases;
            forall id :: id in t.leases ==> id in a && Evolves(t.leases[id], a[id]) && a[id].state == t.leases[id].state
  {
    hide Reported;
    ReportLeases(t, chain, r);
  }

  lemma StopUnsettled(t: Tables, opening: map<Id, real>, id: Id, now: real)
    requires Related(t) && Audited(t.books, opening) && SettledBut(t, []) && AllExplained(t, opening)
    ensures var a := StoppedAndSettled(t, id, now); SettledBut(a, []) && AllExplained(a, opening)
  {
    hide SettledTables, Stopped, SettledBut, AllExplained, Related, Audited;
    StopKeepsLease(t, id, now);
    if Stopped(t, id, now).1 {
      StopPending(t, opening, id, now);
      StopRelated(t, id, now);
      StopFrame(t, id, now);
      assert [id] + [] == [id];
      SettleOne(Stopped(t, id, now).0, opening, [], id, now);
    }
  }

  lemma RoundUnsettled(s: Setup, w: World, opening: map<Id, real>, order: seq<Id>)
    requires Related(w.tables) && Audited(w.tables.books, opening)
    requires SettledBut(w.tables, []) && AllExplained(w.tables, opening)
    ensures var a := TablesAfter(s, w, WatchdogRound(order)); SettledBut(a, []) && AllExplained(a, opening)
  {
    hide SettledAll, Expired, ListsExpired, SettledBut, AllExplained, Related, Audited;
    var t := w.tables;
    if ListsExpired(t, w.now, order) {
      ExpirePending(t, opening, order, w.now);
      ExpireFrame(t, order, w.now);
      ExpireRelated(t, order, w.now);
      OrderDistinct(t, order, w.now);
      SettleEach(Expired(t, w.now), opening, order, w.now);
    }
  }

  lemma OrderDistinct(t: Tables, order: seq<Id>, now: real)
    requires ListsExpired(t, now, order)
    ensures forall i, j :: 0 <= i < j < |order| ==> order[i] != order[j]
  {
  }

  lemma StopRelated(t: Tables, id: Id, now: real)
    requires Related(t) && Stopped(t, id, now).1
    ensures Related(Stopped(t, id, now).0)
    ensures Stopped(t, id, now).0.leases[id].state != Active
  {
    hide Exclusive;
    StopKeepsConstraints(t, id, now);
  }

  lemma ExpireRelated(t: Tables, order: seq<Id>, now: real)
    requires Related(t) && ListsExpired(t, now, order)
    ensures Related(Expired(t, now))
  {
    hide Expired;
    ExpireFrame(t, order, now);
    ExpireKeepsConstraints(t, now);
  }

  lemma HeartbeatLeases(t: Tables, worker: Id, hashrate: real)
    ensures var a := HeartbeatSeen(t, worker, hashrate);
            forall id :: id in t.leases ==>
              Evolves(t.leases[id], a.leases[id])
              && a.leases[id] == t.leases[id].(hashrateSum := a.leases[id].hashrateSum, hashrateCount := a.leases[id].hashrateCount)
  {
  }

  lemma ReportLeases(t: Tables, chain: Option<Chain>, r: Report)
    ensures var a := Reported(t, chain, r).leases;
            && a.Keys == t.leases.Keys
            && (forall id :: id in t.leases ==> SameButBlocks(t.leases[id], a[id]))
  {
    hide RowFor, Counts;
  }

  ghost predicate SameButBlocks(a: Lease, b: Lease) {
    a.blocksFound <= b.blocksFound && b == a.(blocksFound := b.blocksFound)
  }

  // ----- The life of a lease -----

  /** What may happen to a lease: its terms never change, its counters grow, and once it has ended its state and end
      time are final. */
  ghost predicate Evolves(a: Lease, b: Lease) {
    && b.worker == a.worker && b.consumer == a.consumer && b.address == a.address && b.prefix == a.prefix
    && b.duration == a.duration && b.pricePerSec == a.pricePerSec && b.createdAt == a.createdAt
    && b.blocksFound >= a.blocksFound && b.hashrateCount >= a.hashrateCount
    && (a.state != Active ==> b.state == a.state && b.endedAt == a.endedAt)
  }

  lemma EvolvesFurther(a: Lease, b: Lease, c: Lease)
    requires Evolves(a, b) && Evolves(b, c)
    ensures Evolves(a, c)
  {
  }

  ghost predicate AllEvolve(a: map<Id, Lease>, b: map<Id, Lease>) {
    forall id :: id in a ==> id in b && Evolves(a[id], b[id])
  }

  /** An active lease has no end time, an ended one has, within its creation and the present; no lease is ever
      cancelled, and no price is negative. */
  ghost predicate Lively(t: Tables, now: real) {
    && (forall id :: id in t.leases ==> LivelyLease(t.leases[id], now))
    && (forall w :: w in t.workers ==> t.workers[w].pricePerMin >= 0.0)
  }

  ghost predicate LivelyLease(l: Lease, now: real) {
    && l.pricePerSec >= 0.0 && l.createdAt <= now
    && match l.state
       case Active => l.endedAt.None?
       case Completed => l.endedAt.Some? && l.createdAt <= l.endedAt.value <= now
       case Cancelled => false
  }

  lemma SettleAllLeases(t: Tables, list: seq<Id>, now: real)
    requires Related(t) && forall id :: id in list ==> id in t.leases
    ensures var a := SettledAll(t, list, now); a.leases == t.leases && a.workers == t.workers && a.blocks == t.blocks
    decreases |list|
  {
    hide Related, SettledTables;
    if list != [] {
      var lease := t.leases[list[0]];
      SettleRelated(t, list[0], lease, now);
      var (s, o) := SettledTables(t, list[0], lease, now);
      if !o.Duplicate? {
        SettleAllLeases(s, list[1..], now);
      }
    }
  }

  lemma RentLife(t: Tables, r: RentRequest, scan: seq<Id>, now: real)
    requires Lively(t, now)
    ensures var a := RentedTables(t, r, scan, now).0; Lively(a, now) && AllEvolve(t.leases, a.leases)
  {
    hide Pick;
  }

  lemma StopLife(t: Tables, id: Id, now: real)
    requires Lively(t, now)
    ensures var a := Stopped(t, id, now).0; Lively(a, now) && AllEvolve(t.leases, a.leases)
  {
  }

  lemma ExpireLife(t: Tables, now: real)
    requires Lively(t, now)
    ensures var a := Expired(t, now); Lively(a, now) && AllEvolve(t.leases, a.leases)
  {
  }

  /** Every step moves every lease forward in its life and never back. */
  lemma LifeStep(s: Setup, w: World, e: Event)
    requires Related(w.tables) && Lively(w.tables, w.now) && s.rules.interval > 0
    ensures var v := Step(s, w, e); Lively(v.tables, v.now) && AllEvolve(w.tables.leases, v.tables.leases) && v.now >= w.now
  {
    hide Settled, SettledAll, SettledTables, Expired, ListsExpired, HeartbeatSeen, Stopped, RentedTables, Reported,
      Related, Deposited, Withdrawn, Transferred, Submitted;
    var t := w.tables;
    match e
    case Heartbeat(worker, hashrate) =>
      HeartbeatFrame(t, worker, hashrate);
      HeartbeatLeases(t, worker, hashrate);
      HeartbeatPrices(t, worker, hashrate);
    case Rent(r, scan) => RentLife(t, r, scan, w.now);
    case Stop(id) =>
      StopKeepsLease(t, id, w.now);
      StopLife(t, id, w.now);
      if Stopped(t, id, w.now).1 {
        StopRelated(t, id, w.now);
        SettleRelated(Stopped(t, id, w.now).0, id, Stopped(t, id, w.now).0.leases[id], w.now);
      }
    case WatchdogRound(order) =>
      if ListsExpired(t, w.now, order) {
        ExpireFrame(t, order, w.now);
        ExpireLife(t, w.now);
        ExpireRelated(t, order, w.now);
        SettleAllLeases(Expired(t, w.now), order, w.now);
      }
    case BlockFound(r) =>
      ReportFrame(t, if s.attached then Some(w.chain) else None, r);
      ReportLeases(t, if s.attached then Some(w.chain) else None, r);
      ReportPrices(t, if s.attached then Some(w.chain) else None, r);
    case _ =>
  }

  lemma HeartbeatPrices(t: Tables, worker: Id, hashrate: real)
    ensures forall w :: w in t.workers ==> HeartbeatSeen(t, worker, hashrate).workers[w].pricePerMin == t.workers[w].pricePerMin
  {
  }

  lemma ReportPrices(t: Tables, chain: Option<Chain>, r: Report)
    ensures Reported(t, chain, r).workers.Keys == t.workers.Keys
    ensures forall w :: w in t.workers ==> Reported(t, chain, r).workers[w].pricePerMin == t.workers[w].pricePerMin
  {
    hide Lookup, PrefixValid;
  }

  // ----- No balance is negative -----

  ghost predicate FairOpenings(h: History) {
    forall id :: id in h.opening ==> h.opening[id] >= 0.0
  }

  lemma SettleSolvent(t: Tables, id: Id, lease: Lease, now: real)
    requires NonNegative(t.books) && LivelyLease(lease, now)
    ensures NonNegative(SettledTables(t, id, lease, now).0.books)
  {
    hide Settled, NonNegative;
    assert Due(lease, now) >= 0.0;
    SettleOverdrawsNobody(t.books, id, lease.consumer, lease.worker, Due(lease, now));
  }

  lemma SettleAllSolvent(t: Tables, list: seq<Id>, now: real)
    requires Related(t) && NonNegative(t.books) && Lively(t, now) && forall id :: id in list ==> id in t.leases
    ensures NonNegative(SettledAll(t, list, now).books)
    decreases |list|
  {
    hide Related, SettledTables, NonNegative;
    if list != [] {
      var lease := t.leases[list[0]];
      SettleSolvent(t, list[0], lease, now);
      SettleRelated(t, list[0], lease, now);
      var (s, o) := SettledTables(t, list[0], lease, now);
      if !o.Duplicate? {
        SettleAllSolvent(s, list[1..], now);
      }
    }
  }

  /** No step makes a balance negative, unless it opens an account with a negative balance. */
  lemma SolventStep(s: Setup, w: World, h: History, e: Event)
    requires Balanced(w.tables.books, h) && Related(w.tables) && Lively(w.tables, w.now)
    requires FairOpenings(h) ==> NonNegative(w.tables.books)
    ensures FairOpenings(Noted(h, w, e)) ==> NonNegative(TablesAfter(s, w, e).books)
  {
    hide Settled, SettledAll, SettledTables, Expired, ListsExpired, HeartbeatSeen, Stopped, RentedTables, Reported,
      Related, Deposited, Withdrawn, Transferred, Pick, Total;
    var t := w.tables;
    if FairOpenings(Noted(h, w, e)) {
      assert FairOpenings(h) by {
        OpeningsGrow(h, w, e);
      }
      match e
      case Heartbeat(worker, hashrate) => HeartbeatFrame(t, worker, hashrate);
      case Rent(r, scan) => RentFrame(t, r, scan, w.now);
      case Stop(id) =>
        StopFrame(t, id, w.now);
        StopKeepsLease(t, id, w.now);
        StopLife(t, id, w.now);
        if Stopped(t, id, w.now).1 {
          SettleSolvent(Stopped(t, id, w.now).0, id, Stopped(t, id, w.now).0.leases[id], w.now);
        }
      case WatchdogRound(order) =>
        if ListsExpired(t, w.now, order) {
          ExpireFrame(t, order, w.now);
          ExpireLife(t, w.now);
          ExpireRelated(t, order, w.now);
          SettleAllSolvent(Expired(t, w.now), order, w.now);
        }
      case DepositCash(id, amount) => NothingOverdrawn(t.books, id, id, amount, "");
      case WithdrawCash(id, amount) => NothingOverdrawn(t.books, id, id, amount, "");
      case Transfer(from, to, amount, reference) => NothingOverdrawn(t.books, from, to, amount, reference);
      case BlockFound(r) => ReportFrame(t, if s.attached then Some(w.chain) else None, r);
      case CreateAccount(id, role, balance) =>
        if id !in t.books.accounts {
          assert Noted(h, w, e).opening[id] == balance;
        }
      case _ =>
    }
  }

  /** Openings are only ever added. */
  lemma OpeningsGrow(h: History, w: World, e: Event)
    requires Balanced(w.tables.books, h)
    ensures FairOpenings(Noted(h, w, e)) ==> FairOpenings(h)
  {
    hide Deposited, Withdrawn, Transferred, Total;
    var n := Noted(h, w, e);
    if FairOpenings(n) {
      forall id | id in h.opening ensures h.opening[id] >= 0.0 {
        assert id in n.opening && n.opening[id] == h.opening[id];
      }
    }
  }

  // ----- Counters -----

  /** Handlers that add no block rows keep the counters as long as they keep the leases' counts; a new lease starts
      at zero and no row has its id yet. */
  lemma CountFrame(t: Tables, a: Tables)
    requires Counted(t) && a.blocks == t.blocks && t.leases.Keys <= a.leases.Keys
    requires forall id :: id in t.leases ==> a.leases[id].blocksFound == t.leases[id].blocksFound
    requires forall id :: id in a.leases && id !in t.leases ==> id != "" && a.leases[id].blocksFound == 0
    ensures Counted(a)
  {
    forall id | id in a.leases ensures id != "" && a.leases[id].blocksFound == Verified(a.blocks, id) {
      if id !in t.leases {
        NoRowsNoCount(t.blocks, id);
      }
    }
  }

  lemma CountStep(s: Setup, w: World, e: Event)
    requires Related(w.tables) && Counted(w.tables)
    ensures Counted(TablesAfter(s, w, e))
  {
    hide Settled, SettledAll, SettledTables, Expired, ListsExpired, HeartbeatSeen, Stopped, RentedTables, Reported,
      Related, Deposited, Withdrawn, Transferred, Counted;
    var t, a := w.tables, TablesAfter(s, w, e);
    match e
    case Heartbeat(worker, hashrate) =>
      HeartbeatFrame(t, worker, hashrate);
      HeartbeatLeases(t, worker, hashrate);
      CountFrame(t, a);
    case Rent(r, scan) =>
      RentFrame(t, r, scan, w.now);
      RentCount(t, r, scan, w.now);
      CountFrame(t, a);
    case Stop(id) =>
      StopFrame(t, id, w.now);
      StopKeepsLease(t, id, w.now);
      StopCount(t, id, w.now);
      if Stopped(t, id, w.now).1 {
        StopRelated(t, id, w.now);
        SettleRelated(Stopped(t, id, w.now).0, id, Stopped(t, id, w.now).0.leases[id], w.now);
      }
      CountFrame(t, a);
    case WatchdogRound(order) =>
      if ListsExpired(t, w.now, order) {
        ExpireFrame(t, order, w.now);
        ExpireCount(t, w.now);
        ExpireRelated(t, order, w.now);
        SettleAllLeases(Expired(t, w.now), order, w.now);
        CountFrame(t, a);
      }
    case BlockFound(r) => ReportKeepsCount(t, if s.attached then Some(w.chain) else None, r);
    case _ => CountFrame(t, a);
  }

  lemma RentCount(t: Tables, r: RentRequest, scan: seq<Id>, now: real)
    ensures var a := RentedTables(t, r, scan, now).0;
            && t.leases.Keys <= a.leases.Keys
            && (forall id :: id in t.leases ==> a.leases[id] == t.leases[id])
            && (forall id :: id in a.leases && id !in t.leases ==> id != "" && a.leases[id].blocksFound == 0)
  {
    hide Pick;
    assert LeaseId(r) != "" by {
      assert LeaseId(r)[0] == 'l';
    }
  }

  lemma StopCount(t: Tables, id: Id, now: real)
    ensures forall l :: l in t.leases ==> Stopped(t, id, now).0.leases[l].blocksFound == t.leases[l].blocksFound
  {
  }

  lemma ExpireCount(t: Tables, now: real)
    ensures forall l :: l in t.leases ==> Expired(t, now).leases[l].blocksFound == t.leases[l].blocksFound
  {
  }

  lemma RegisterSelf(t: Tables, id: Id, worker: Id)
    ensures Behind(Registered(t, id), worker) == Behind(t, worker)
  {
  }

  lemma HeartbeatSelf(t: Tables, id: Id, hashrate: real, worker: Id)
    ensures Behind(HeartbeatSeen(t, id, hashrate), worker) == Behind(t, worker)
  {
  }

  lemma RentSelf(t: Tables, r: RentRequest, scan: seq<Id>, now: real, worker: Id)
    ensures Behind(RentedTables(t, r, scan, now).0, worker) == Behind(t, worker)
  {
    hide Pick;
  }

  lemma StopSelf(t: Tables, id: Id, now: real, worker: Id)
    ensures Behind(Stopped(t, id, now).0, worker) == Behind(t, worker)
  {
  }

  lemma ExpireSelf(t: Tables, now: real, worker: Id)
    ensures Behind(Expired(t, now), worker) == Behind(t, worker)
  {
  }

  /** Only the report of a block without a lease from an unregistered worker puts its counter behind. */
  lemma SelfStep(s: Setup, w: World, e: Event, worker: Id)
    requires Related(w.tables)
    ensures Behind(TablesAfter(s, w, e), worker)
         == Behind(w.tables, worker) + if e.BlockFound? && Unregistered(w.tables, e.report, worker) then 1 else 0
  {
    hide Settled, SettledAll, SettledTables, Expired, ListsExpired, HeartbeatSeen, Stopped, RentedTables, Registered,
      Reported, Related, Deposited, Withdrawn, Transferred, SelfRows;
    var t := w.tables;
    match e
    case Register(id) => RegisterSelf(t, id, worker);
    case Heartbeat(id, hashrate) => HeartbeatSelf(t, id, hashrate, worker);
    case Rent(r, scan) => RentSelf(t, r, scan, w.now, worker);
    case Stop(id) =>
      StopKeepsLease(t, id, w.now);
      StopSelf(t, id, w.now, worker);
      if Stopped(t, id, w.now).1 {
        StopRelated(t, id, w.now);
        SettleRelated(Stopped(t, id, w.now).0, id, Stopped(t, id, w.now).0.leases[id], w.now);
      }
    case WatchdogRound(order) =>
      if ListsExpired(t, w.now, order) {
        ExpireFrame(t, order, w.now);
        ExpireSelf(t, w.now, worker);
        ExpireRelated(t, order, w.now);
        SettleAllLeases(Expired(t, w.now), order, w.now);
      }
    case BlockFound(r) => ReportSelf(t, if s.attached then Some(w.chain) else None, r, worker);
    case _ =>
  }

  // ----- Chain -----

  /** The chain stays consistent, and rows marked as verified stay on it. */
  lemma ChainStep(s: Setup, w: World, e: Event)
    requires s.rules.interval > 0 && Related(w.tables) && Consistent(w.chain)
    requires s.attached ==> RowsOnChain(w.tables, w.chain)
    ensures var v := Step(s, w, e); Consistent(v.chain) && (s.attached ==> RowsOnChain(v.tables, v.chain))
  {
    hide Settled, SettledAll, SettledTables, Expired, ListsExpired, HeartbeatSeen, Stopped, RentedTables, Reported,
      Related, Deposited, Withdrawn, Transferred, Consistent, Submitted;
    var t := w.tables;
    match e
    case Heartbeat(worker, hashrate) => HeartbeatFrame(t, worker, hashrate);
    case Rent(r, scan) => RentFrame(t, r, scan, w.now);
    case Stop(id) =>
      StopFrame(t, id, w.now);
      StopKeepsLease(t, id, w.now);
      if Stopped(t, id, w.now).1 {
        StopRelated(t, id, w.now);
        SettleRelated(Stopped(t, id, w.now).0, id, Stopped(t, id, w.now).0.leases[id], w.now);
      }
    case WatchdogRound(order) =>
      if ListsExpired(t, w.now, order) {
        ExpireFrame(t, order, w.now);
        ExpireRelated(t, order, w.now);
        SettleAllLeases(Expired(t, w.now), order, w.now);
      }
    case BlockFound(r) =>
      if s.attached {
        ReportKeepsRowsOnChain(t, w.chain, r);
      }
    case Submit(submission) => SubmitKeeps(w.chain, s.rules, submission);
    case _ =>
  }

  // ----- Every reachable state -----

  ghost predicate Invariant(s: Setup, w: World, h: History) {
    && Balanced(w.tables.books, h) && Related(w.tables)
    && SettledBut(w.tables, []) && AllExplained(w.tables, h.opening)
    && Lively(w.tables, w.now) && (FairOpenings(h) ==> NonNegative(w.tables.books))
    && Counted(w.tables) && Consistent(w.chain) && (s.attached ==> RowsOnChain(w.tables, w.chain))
  }

  lemma InitialHolds(s: Setup, difficulty: int)
    ensures Invariant(s, Initial(difficulty), EmptyHistory())
  {
    var accounts := Initial(difficulty).tables.books.accounts;
    TotalWithout(accounts, TREASURY);
    assert accounts - {TREASURY} == map[];
  }

  /** The main theorem: money, constraints, settlements, lease lives, solvency, counters and chain hold in every
      state every run reaches. */
  lemma {:induction false} RunHolds(s: Setup, difficulty: int, events: seq<Event>)
    requires s.rules.interval > 0
    ensures var (w, h) := Run(s, difficulty, events); Invariant(s, w, h)
  {
    hide Step, TablesAfter, Noted, Balanced, Related, SettledBut, AllExplained, Lively, Counted, Consistent, RowsOnChain,
      NonNegative, FairOpenings;
    if events == [] {
      InitialHolds(s, difficulty);
    } else {
      RunHolds(s, difficulty, events[..|events| - 1]);
      var (w, h) := Run(s, difficulty, events[..|events| - 1]);
      var e := events[|events| - 1];
      StepParts(s, w, e);
      MoneyStep(s, w, h, e);
      RelatedStep(s, w, e);
      BalancedAudited(w, h);
      SettlementStep(s, w, h, e);
      LifeStep(s, w, e);
      SolventStep(s, w, h, e);
      CountStep(s, w, e);
      ChainStep(s, w, e);
    }
  }

  lemma BalancedAudited(w: World, h: History)
    requires Balanced(w.tables.books, h)
    ensures Audited(w.tables.books, h.opening)
  {
    hide Audited, Total;
  }

  lemma StepParts(s: Setup, w: World, e: Event)
    requires s.rules.interval > 0
    ensures Step(s, w, e).tables == TablesAfter(s, w, e)
    ensures e.Tick? && e.seconds > 0.0 ==> Step(s, w, e).now == w.now + e.seconds
    ensures !e.Tick? || e.seconds <= 0.0 ==> Step(s, w, e).now == w.now
  {
  }

  /** Between any two moments of a run no lease disappears and every lease has only moved forward. */
  lemma {:induction false} LeasesNeverReturn(s: Setup, difficulty: int, events: seq<Event>, n: nat)
    requires s.rules.interval > 0 && n <= |events|
    ensures AllEvolve(Run(s, difficulty, events[..n]).0.tables.leases, Run(s, difficulty, events).0.tables.leases)
    decreases |events| - n
  {
    hide Step, TablesAfter, Noted, Evolves, Balanced, Related, SettledBut, AllExplained, Lively, Counted, Consistent,
      RowsOnChain, NonNegative, FairOpenings;
    var first, last := Run(s, difficulty, events[..n]).0, Run(s, difficulty, events).0;
    if n == |events| {
      assert events[..n] == events;
      EvolvesSelf(first.tables.leases);
    } else {
      var earlier := events[..|events| - 1];
      assert earlier[..n] == events[..n];
      LeasesNeverReturn(s, difficulty, earlier, n);
      RunHolds(s, difficulty, earlier);
      var (w, h) := Run(s, difficulty, earlier);
      LifeStep(s, w, events[|events| - 1]);
      EvolveThrough(first.tables.leases, w.tables.leases, last.tables.leases);
    }
  }

  lemma EvolvesSelf(a: map<Id, Lease>)
    ensures AllEvolve(a, a)
  {
  }

  lemma EvolveThrough(a: map<Id, Lease>, b: map<Id, Lease>, c: map<Id, Lease>)
    requires AllEvolve(a, b) && AllEvolve(b, c)
    ensures AllEvolve(a, c)
  {
    forall id | id in a ensures id in c && Evolves(a[id], c[id]) {
      EvolvesFurther(a[id], b[id], c[id]);
    }
  }

  // ----- What the invariant says to each party -----

  /** The `i`-th event is a transfer that passes the sender's checks and whose recipient does not exist. */
  ghost predicate Strands(s: Setup, difficulty: int, events: seq<Event>, i: nat)
    requires s.rules.interval > 0 && i < |events|
  {
    var b, e := Run(s, difficulty, events[..i]).0.tables.books, events[i];
    e.Transfer? && e.amount > 0.0 && e.from in b.accounts && b.accounts[e.from].balance >= e.amount && e.to !in b.accounts
  }

  /** Stranded money is counted by exactly the stranding transfers. */
  lemma {:induction false} StrandedIff(s: Setup, difficulty: int, events: seq<Event>)
    requires s.rules.interval > 0
    ensures Run(s, difficulty, events).1.stranded >= 0.0
    ensures Run(s, difficulty, events).1.stranded == 0.0 <==> forall i :: 0 <= i < |events| ==> !Strands(s, difficulty, events, i)
  {
    hide Step, TablesAfter, Deposited, Withdrawn, Transferred;
    if events != [] {
      var n, earlier := |events| - 1, events[..|events| - 1];
      StrandedIff(s, difficulty, earlier);
      var (w, h) := Run(s, difficulty, earlier);
      forall i | 0 <= i < n ensures Strands(s, difficulty, events, i) == Strands(s, difficulty, earlier, i) {
        assert earlier[..i] == events[..i];
      }
      if events[n].Transfer? {
        TransferLoses(w.tables.books, events[n].from, events[n].to, events[n].amount, events[n].reference);
      }
      assert Strands(s, difficulty, events, n) <==> Noted(h, w, events[n]).stranded != h.stranded;
    }
  }

  /** Over every run the balances add up to initial funding plus deposits minus withdrawals if and only if no transfer
      named a recipient that did not exist. */
  lemma MoneyConserved(s: Setup, difficulty: int, events: seq<Event>)
    requires s.rules.interval > 0
    ensures var (w, h) := Run(s, difficulty, events);
            Total(w.tables.books.accounts) == h.funded + h.deposited - h.withdrawn
            <==> forall i :: 0 <= i < |events| ==> !Strands(s, difficulty, events, i)
  {
    hide Run, Strands;
    RunHolds(s, difficulty, events);
    StrandedIff(s, difficulty, events);
  }

  /** A run in which money is lost: an account with 10 sends 5 to one that was never created. */
  lemma MoneyCanBeStranded(s: Setup, difficulty: int)
    requires s.rules.interval > 0
    ensures var events := [CreateAccount("a", Consumer, 10.0), Transfer("a", "b", 5.0, "")];
            var (w, h) := Run(s, difficulty, events);
            h.funded == 10.0 && h.deposited == h.withdrawn == 0.0 && Total(w.tables.books.accounts) == 5.0
  {
    hide Total, Invariant, Step;
    var e1, e2 := CreateAccount("a", Consumer, 10.0), Transfer("a", "b", 5.0, "");
    assert [e1, e2][..1] == [e1] && [e1][..0] == [];
    assert Run(s, difficulty, []) == (Initial(difficulty), EmptyHistory());
    var (w1, h1) := Run(s, difficulty, [e1]);
    StepParts(s, Initial(difficulty), e1);
    assert w1.tables.books == Created(Initial(difficulty).tables.books, "a", Consumer, 10.0);
    RunHolds(s, difficulty, [e1, e2]);
    ReadOff(s, difficulty, [e1, e2]);
  }

  lemma ReadOff(s: Setup, difficulty: int, events: seq<Event>)
    requires s.rules.interval > 0 && Invariant(s, Run(s, difficulty, events).0, Run(s, difficulty, events).1)
    ensures var (w, h) := Run(s, difficulty, events);
            Total(w.tables.books.accounts) == h.funded + h.deposited - h.withdrawn - h.stranded
  {
    hide Run, Total;
  }

  /** Every balance in every reachable state is explained by the opening balance and the transactions, and none is
      negative when no account was opened in debt. */
  lemma BalancesExplained(s: Setup, difficulty: int, events: seq<Event>, id: Id)
    requires s.rules.interval > 0 && id in Run(s, difficulty, events).0.tables.books.accounts
    ensures var (w, h) := Run(s, difficulty, events);
            && id in h.opening
            && w.tables.books.accounts[id].balance == h.opening[id] + Net(w.tables.books.transactions, id)
            && (FairOpenings(h) ==> w.tables.books.accounts[id].balance >= 0.0)
  {
    hide Run;
    RunHolds(s, difficulty, events);
  }

  /** Whatever workers report about themselves, no run gives one worker two active leases. */
  lemma OneActiveLease(s: Setup, difficulty: int, events: seq<Event>, a: Id, b: Id, worker: Id)
    requires s.rules.interval > 0
    requires IsActiveLease(Run(s, difficulty, events).0.tables.leases, a, worker)
    requires IsActiveLease(Run(s, difficulty, events).0.tables.leases, b, worker)
    ensures a == b
  {
    hide Run;
    RunHolds(s, difficulty, events);
  }

  /** In every reachable state a lease that is still active was never charged, and an ended one exactly once, with a
      settlement record: how long it lasted, that times its price clamped to the consumer's balance at that moment as
      the charge, and 95 and 5 hundredths of it as consecutive transactions of provider and treasury. */
  lemma ChargedExactlyOnce(s: Setup, difficulty: int, events: seq<Event>, id: Id)
    requires s.rules.interval > 0 && id in Run(s, difficulty, events).0.tables.leases
    ensures var (w, h) := Run(s, difficulty, events);
            var t := w.tables;
            && Charges(t.books.transactions, id) == (if t.leases[id].state == Active then 0 else 1)
            && (t.leases[id].state != Active ==> id in t.settlements && Explained(t, h.opening, id))
  {
    hide Run;
    RunHolds(s, difficulty, events);
  }

  /** In every reachable state a lease's counter is the number of its verified rows, and with a chain attached every
      such row's key is on the chain. */
  lemma CountersAgree(s: Setup, difficulty: int, events: seq<Event>, id: Id)
    requires s.rules.interval > 0 && id in Run(s, difficulty, events).0.tables.leases
    ensures var w := Run(s, difficulty, events).0;
            && w.tables.leases[id].blocksFound == Verified(w.tables.blocks, id)
            && (s.attached ==> forall i :: 0 <= i < |w.tables.blocks| && w.tables.blocks[i].leaseId == id && Counts(w.tables.blocks[i])
                                           ==> w.tables.blocks[i].key in w.chain.known)
  {
    hide Run;
    RunHolds(s, difficulty, events);
  }

  /** The `i`-th event reports a block without a lease from a worker that is not registered then. */
  ghost predicate Uncounted(s: Setup, difficulty: int, events: seq<Event>, i: nat, worker: Id)
    requires s.rules.interval > 0 && i < |events|
  {
    events[i].BlockFound? && Unregistered(Run(s, difficulty, events[..i]).0.tables, events[i].report, worker)
  }

  /** Over every run a worker's own counter never exceeds its rows without a lease, and is their number if and only if
      the worker never reported such a block while it was not registered. */
  lemma {:induction false} SelfCountedIff(s: Setup, difficulty: int, events: seq<Event>, worker: Id)
    requires s.rules.interval > 0
    ensures var t := Run(s, difficulty, events).0.tables;
            && SelfOf(t.workers, worker) <= SelfRows(t.blocks, worker)
            && (SelfOf(t.workers, worker) == SelfRows(t.blocks, worker)
                <==> forall i :: 0 <= i < |events| ==> !Uncounted(s, difficulty, events, i, worker))
  {
    hide Step, TablesAfter, Invariant, Unregistered, SelfRows, SelfOf;
    if events == [] {
      NoneMined(difficulty, worker);
    } else {
      var n, earlier := |events| - 1, events[..|events| - 1];
      SelfCountedIff(s, difficulty, earlier, worker);
      RunHolds(s, difficulty, earlier);
      var w, e := Run(s, difficulty, earlier).0, events[n];
      RunRelated(s, difficulty, earlier);
      SelfStep(s, w, e, worker);
      StepParts(s, w, e);
      forall i | 0 <= i < n ensures Uncounted(s, difficulty, events, i, worker) == Uncounted(s, difficulty, earlier, i, worker) {
        assert earlier[..i] == events[..i];
      }
      assert Uncounted(s, difficulty, events, n, worker) <==> e.BlockFound? && Unregistered(w.tables, e.report, worker);
    }
  }

  lemma NoneMined(difficulty: int, worker: Id)
    ensures SelfOf(Initial(difficulty).tables.workers, worker) == SelfRows(Initial(difficulty).tables.blocks, worker) == 0
  {
  }

  lemma RunRelated(s: Setup, difficulty: int, events: seq<Event>)
    requires s.rules.interval > 0
    ensures Related(Run(s, difficulty, events).0.tables)
  {
    hide Run, Related;
    RunHolds(s, difficulty, events);
  }

  /** A run that puts a counter behind for good: a worker reports a block and registers afterwards. */
  lemma SelfBlockUncounted(s: Setup, difficulty: int)
    requires s.rules.interval > 0
    ensures var t := Run(s, difficulty, [BlockFound(Report("w", "", "", "", "")), Register("w")]).0.tables;
            "w" in t.workers && t.workers["w"].selfBlocks == 0 && SelfRows(t.blocks, "w") == 1
  {
    var e1, e2 := BlockFound(Report("w", "", "", "", "")), Register("w");
    assert [e1, e2][..1] == [e1] && [e1][..0] == [];
    assert Run(s, difficulty, []) == (Initial(difficulty), EmptyHistory());
    var first := Run(s, difficulty, [e1]).0;
    assert first == Step(s, Initial(difficulty), e1);
    var row := BlockRow("", "w", "", "", "", true, true, None);
    assert first.tables.blocks == [] + [row] && first.tables.workers == map[];
    SelfRowsAppend([], row, "w");
  }
}
