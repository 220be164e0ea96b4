/** The tables of server/storage/_schema.py the handlers share, with the constraints SQLite enforces on them. */
module Database {
  import opened Common
  import opened Ledger

  // ----- Rows -----

  /** The status text of a worker is whatever its last message said. */
  datatype Worker = Worker(state: string, pricePerMin: real, minDuration: int, maxDuration: int,
                           hashrate: real, selfBlocks: nat)

  datatype LeaseState = Active | Completed | Cancelled

  datatype Lease = Lease(worker: Id, consumer: Id, address: string, prefix: string, duration: int, pricePerSec: real,
                         state: LeaseState, createdAt: real, endedAt: Option<real>,
                         blocksFound: nat, hashrateSum: real, hashrateCount: nat)

  datatype Settlement = Settlement(consumer: Id, worker: Id, duration: real, blocksFound: nat,
                                   totalCost: real, payout: real, fee: real)

  datatype BlockRow = BlockRow(leaseId: Id, worker: Id, hash: string, key: string, account: string,
                               prefixValid: bool, chainVerified: bool, chainBlockId: Option<nat>)

  const AVAILABLE := "AVAILABLE"
  const LEASED := "LEASED"

  datatype Tables = Tables(books: Books, workers: map<Id, Worker>, leases: map<Id, Lease>,
                           settlements: map<Id, Settlement>, blocks: seq<BlockRow>)

  predicate IsActiveLease(leases: map<Id, Lease>, id: Id, worker: Id) {
    id in leases && leases[id].worker == worker && leases[id].state == Active
  }

  predicate HasActiveLease(leases: map<Id, Lease>, worker: Id) {
    exists id :: id in leases && IsActiveLease(leases, id, worker)
  }

  /** idx_leases_worker_active: a worker has at most one active lease. */
  ghost predicate Exclusive(leases: map<Id, Lease>) {
    forall a, b, w :: IsActiveLease(leases, a, w) && IsActiveLease(leases, b, w) ==> a == b
  }

  /** The unique index and the foreign keys. */
  ghost predicate Constraints(t: Tables) {
    && Exclusive(t.leases)
    && (forall id :: id in t.leases ==> t.leases[id].worker in t.workers && t.leases[id].consumer in t.books.accounts)
    && (forall id :: id in t.settlements ==> id in t.leases)
    && (forall i :: 0 <= i < |t.books.transactions| ==> t.books.transactions[i].account in t.books.accounts)
  }

  /** The one connection every repository writes through. */
  class Connection {
    var accounts: map<Id, Account>
    var transactions: seq<Tx>
    var workers: map<Id, Worker>
    var leases: map<Id, Lease>
    var settlements: map<Id, Settlement>
    var blocks: seq<BlockRow>

    function Books(): Books
      reads this
    {
      Ledger.Books(accounts, transactions)
    }

    function View(): Tables
      reads this
    {
      Tables(Books(), workers, leases, settlements, blocks)
    }

    constructor ()
      ensures View() == Tables(Ledger.Books(map[], []), map[], map[], map[], [])
    {
      accounts, transactions, workers, leases, settlements, blocks := map[], [], map[], map[], map[], [];
    }
  }
}
