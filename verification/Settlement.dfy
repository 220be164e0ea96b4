/** SettlementEngine (server/settlement.py) and the two callers that settle a lease right after ending it
    (server/server.py, server/routers/rental.py). */
module SettlementEngine {
  import opened Common
  import opened Ledger
  import opened Database
  import opened Matcher
  import Accounts

  datatype SettleOutcome = Charged | RolledBack | Duplicate

  /** elapsed_sec of a lease row. */
  function Elapsed(lease: Lease, now: real): real {
    (if lease.endedAt.Some? then lease.endedAt.value else now) - lease.createdAt
  }

  function Due(lease: Lease, now: real): real {
    Elapsed(lease, now) * lease.pricePerSec
  }

  function RecordOf(t: Tables, lease: Lease, now: real): Settlement
    requires lease.consumer in t.books.accounts
  {
    var cost := Charge(t.books.accounts[lease.consumer].balance, Due(lease, now));
    Settlement(lease.consumer, lease.worker, Elapsed(lease, now), lease.blocksFound,
               cost, cost * PROVIDER_SHARE, cost * PLATFORM_SHARE)
  }

  /** The money moves in one transaction; the settlement record is inserted after it, and a second record for the
      same lease is refused by the unique index without undoing the charge. */
  function SettledTables(t: Tables, id: Id, lease: Lease, now: real): (Tables, SettleOutcome) {
    var books := Settled(t.books, id, lease.consumer, lease.worker, Due(lease, now));
    if books.None? then (t, RolledBack)
    else if id in t.settlements || id !in t.leases then (t.(books := books.value), Duplicate)
    else (t.(books := books.value, settlements := t.settlements[id := RecordOf(t, lease, now)]), Charged)
  }

  /** The stop endpoint: stop the lease and settle the re-read row. */
  function StoppedAndSettled(t: Tables, id: Id, now: real): Tables {
    var (s, stopped) := Stopped(t, id, now);
    if !stopped then t else SettledTables(s, id, s.leases[id], now).0
  }

  /** One watchdog round after the expired leases have ended: settle them one by one; an exception ends the round. */
  function SettledAll(t: Tables, list: seq<Id>, now: real): Tables
    requires forall id :: id in list ==> id in t.leases
    decreases |list|
  {
    if list == [] then t
    else
      var (s, o) := SettledTables(t, list[0], t.leases[list[0]], now);
      if o.Duplicate? then s else SettledAll(s, list[1..], now)
  }

  class Engine {
    const db: Connection
    const accounts: Accounts.AccountRepo

    constructor (db: Connection, accounts: Accounts.AccountRepo)
      ensures this.db == db && this.accounts == accounts
    {
      this.db, this.accounts := db, accounts;
    }

    /** BEGIN IMMEDIATE ... COMMIT: three updates, then three inserts, or everything rolled back. */
    method Execute(id: Id, consumer: Id, provider: Id, due: real) returns (cost: Option<real>)
      requires accounts.db == db
      modifies db`accounts, db`transactions
      ensures var s := Settled(old(db.Books()), id, consumer, provider, due);
              && db.Books() == (if s.Some? then s.value else old(db.Books()))
              && (cost.Some? <==> s.Some?)
              && (cost.Some? ==> consumer in old(db.accounts) && Clamped(cost.value, due, old(db.accounts)[consumer].balance))
    {
      hide Credited, Settled;
      var savedAccounts, savedTransactions := db.accounts, db.transactions;
      if consumer !in db.accounts {
        SettledStatements(db.Books(), id, consumer, provider, due, due);
        return None;
      }
      var totalCost := due;
      if db.accounts[consumer].balance < totalCost {
        totalCost := if db.accounts[consumer].balance < 0.0 then 0.0 else db.accounts[consumer].balance;
      }
      SettledStatements(db.Books(), id, consumer, provider, due, totalCost);
      accounts.Add(consumer, -totalCost);
      accounts.Add(provider, totalCost * PROVIDER_SHARE);
      accounts.Add(TREASURY, totalCost * PLATFORM_SHARE);
      var ok := accounts.RecordTx(Tx(consumer, LeaseCharge, totalCost, id));
      if ok {
        ok := accounts.RecordTx(Tx(provider, ProviderPayout, totalCost * PROVIDER_SHARE, id));
      }
      if ok {
        ok := accounts.RecordTx(Tx(TREASURY, PlatformFee, totalCost * PLATFORM_SHARE, id));
      }
      if !ok {
        db.accounts, db.transactions := savedAccounts, savedTransactions;
        return None;
      }
      return Some(totalCost);
    }

    method SettleLease(id: Id, lease: Lease, now: real) returns (outcome: SettleOutcome)
      requires accounts.db == db
      modifies db
      ensures (db.View(), outcome) == SettledTables(old(db.View()), id, lease, now)
    {
      hide Settled;
      ghost var was := db.View();
      var cost := Execute(id, lease.consumer, lease.worker, Due(lease, now));
      if cost.None? {
        return RolledBack;
      }
      ChargeClamps(was.books.accounts[lease.consumer].balance, Due(lease, now), cost.value);
      if id in db.settlements || id !in db.leases {
        return Duplicate;
      }
      db.settlements := db.settlements[id :=
        Settlement(lease.consumer, lease.worker, Elapsed(lease, now), lease.blocksFound,
                   cost.value, cost.value * PROVIDER_SHARE, cost.value * PLATFORM_SHARE)];
      return Charged;
    }
  }

  class Server {
    const db: Connection
    const matcher: MatchingEngine
    const engine: Engine

    constructor (db: Connection, matcher: MatchingEngine, engine: Engine)
      ensures this.db == db && this.matcher == matcher && this.engine == engine
    {
      this.db, this.matcher, this.engine := db, matcher, engine;
    }

    ghost predicate Wired()
    {
      matcher.db == db && engine.db == db && engine.accounts.db == db
    }

    method HandleStop(id: Id, now: real)
      requires Wired() && Constraints(db.View())
      modifies db
      ensures db.View() == StoppedAndSettled(old(db.View()), id, now)
    {
      hide Stopped, SettledTables, Constraints;
      var stopped := matcher.StopLease(id, now);
      if stopped {
        StopKeepsLease(old(db.View()), id, now);
        var outcome := engine.SettleLease(id, db.leases[id], now);
      } else {
        StopKeepsLease(old(db.View()), id, now);
      }
    }

    /** One round of the lease watchdog. */
    method Watchdog(now: real) returns (ghost list: seq<Id>)
      requires Wired() && Constraints(db.View())
      modifies db
      ensures ListsExpired(old(db.View()), now, list)
      ensures forall id :: id in list ==> id in old(db.leases)
      ensures db.View() == SettledAll(Expired(old(db.View()), now), list, now)
    {
      hide Expired, Constraints, SettledTables;
      var completed := matcher.CheckExpiredLeases(now);
      list := completed;
      ExpireKeepsLeases(old(db.View()), now);
      ghost var ended := db.View();
      var i, failed := 0, false;
      while i < |completed| && !failed
        invariant i <= |completed| && (forall id :: id in completed ==> id in db.leases && id in ended.leases)
        invariant !failed ==> SettledAll(ended, completed, now) == SettledAll(db.View(), completed[i..], now)
        invariant failed ==> SettledAll(ended, completed, now) == db.View()
      {
        SettleKeepsLeases(db.View(), completed[i], db.leases[completed[i]], now);
        var outcome := engine.SettleLease(completed[i], db.leases[completed[i]], now);
        failed := outcome.Duplicate?;
        i := i + 1;
      }
    }
  }

  lemma StopKeepsLease(t: Tables, id: Id, now: real)
    ensures var (s, stopped) := Stopped(t, id, now); if stopped then id in s.leases else s == t
  {
  }

  lemma ExpireKeepsLeases(t: Tables, now: real)
    ensures Expired(t, now).leases.Keys == t.leases.Keys
  {
  }

  lemma SettleKeepsLeases(t: Tables, id: Id, lease: Lease, now: real)
    ensures SettledTables(t, id, lease, now).0.leases == t.leases
  {
  }
}
