/** BlockWatcher of server/watcher.py: block reports are checked against the lease and the chain and counted. */
module Watcher {
  import opened Common
  import opened Ledger
  import opened Database
  import opened ChainSimulator

  datatype Report = Report(worker: Id, leaseId: Id, key: string, hash: string, account: string)

  // ----- The handler as a function of the tables and the chain -----

  function PrefixValid(lease: Lease, key: string): bool {
    lease.prefix == "" || Lower(Take16(key)) == Lower(lease.prefix)
  }

  /** The lease's prefix and the first sixteen characters of the key, or all of a shorter one, differ at most in case;
      no prefix is always met. */
  lemma PrefixValidIff(lease: Lease, key: string)
    ensures PrefixValid(lease, key) <==>
            lease.prefix == "" || SameButCase(lease.prefix, if |key| < 16 then key else key[..16])
  {
    hide Lower;
    LowerEqual(Take16(key), lease.prefix);
  }

  const LIMIT: nat := 100

  /** The first of the newest hits with exactly this key. */
  function FirstWithKey(hits: seq<ChainBlock>, key: string): (b: Option<ChainBlock>)
    ensures b.Some? ==> b.value in hits && b.value.key == key
    ensures b.None? ==> forall h :: h in hits ==> h.key != key
  {
    if hits == [] then None else if hits[0].key == key then Some(hits[0]) else FirstWithKey(hits[1..], key)
  }

  /** Without a chain every report passes as verified. */
  function Lookup(chain: Option<Chain>, key: string): (bool, Option<nat>) {
    if chain.None? then (true, None)
    else
      var b := FirstWithKey(Newest(Hits(chain.value.blocks, Take16(key)), LIMIT), key);
      if b.Some? then (true, Some(b.value.blockId)) else (false, None)
  }

  function RowFor(lease: Lease, chain: Option<Chain>, r: Report): BlockRow {
    var (verified, id) := Lookup(chain, r.key);
    BlockRow(r.leaseId, r.worker, r.hash, r.key, r.account, PrefixValid(lease, r.key), verified, id)
  }

  predicate Counts(row: BlockRow) {
    row.prefixValid && row.chainVerified
  }

  function SelfMined(t: Tables, r: Report): Tables {
    t.(blocks := t.blocks + [BlockRow("", r.worker, r.hash, r.key, r.account, true, true, None)],
       workers := if r.worker in t.workers
                  then t.workers[r.worker := t.workers[r.worker].(selfBlocks := t.workers[r.worker].selfBlocks + 1)]
                  else t.workers)
  }

  function Reported(t: Tables, chain: Option<Chain>, r: Report): Tables {
    if r.leaseId == "" then SelfMined(t, r)
    else if r.leaseId !in t.leases then t
    else
      var lease := t.leases[r.leaseId];
      var row := RowFor(lease, chain, r);
      t.(blocks := t.blocks + [row],
         leases := if Counts(row) then t.leases[r.leaseId := lease.(blocksFound := lease.blocksFound + 1)] else t.leases)
  }

  /** What a report adds. Without a lease: a row that passes unchecked, counted for a registered worker. Under a known
      lease: a row with both verdicts, counted for the lease exactly when both are good. Under an unknown one: nothing. */
  lemma ReportedRows(t: Tables, chain: Option<Chain>, r: Report)
    ensures var a := Reported(t, chain, r);
            a.books == t.books && a.settlements == t.settlements
            && (r.leaseId == "" ==>
                  && a.leases == t.leases
                  && a.blocks == t.blocks + [BlockRow("", r.worker, r.hash, r.key, r.account, true, true, None)]
                  && a.workers == if r.worker !in t.workers then t.workers
                                  else t.workers[r.worker := t.workers[r.worker].(selfBlocks := t.workers[r.worker].selfBlocks + 1)])
            && (r.leaseId != "" && r.leaseId !in t.leases ==> a == t)
            && (r.leaseId != "" && r.leaseId in t.leases ==>
                  var lease := t.leases[r.leaseId];
                  var prefixValid, (verified, id) := PrefixValid(lease, r.key), Lookup(chain, r.key);
                  && a.workers == t.workers
                  && a.blocks == t.blocks + [BlockRow(r.leaseId, r.worker, r.hash, r.key, r.account, prefixValid, verified, id)]
                  && a.leases == if prefixValid && verified then t.leases[r.leaseId := lease.(blocksFound := lease.blocksFound + 1)]
                                 else t.leases)
    ensures chain.None? ==> Lookup(chain, r.key) == (true, None)
  {
    hide PrefixValid, FirstWithKey;
  }

  // ----- Counters and rows -----

  /** How many rows of a lease are both prefix-valid and chain-verified. */
  function Verified(blocks: seq<BlockRow>, id: Id): nat {
    if blocks == [] then 0
    else
      var last := blocks[|blocks| - 1];
      Verified(blocks[..|blocks| - 1], id) + if last.leaseId == id && Counts(last) then 1 else 0
  }

  /** Each lease counts its verified rows; rows with a lease id belong to existing leases. */
  ghost predicate Counted(t: Tables) {
    && (forall id :: id in t.leases ==> id != "" && t.leases[id].blocksFound == Verified(t.blocks, id))
    && forall i :: 0 <= i < |t.blocks| ==> t.blocks[i].leaseId == "" || t.blocks[i].leaseId in t.leases
  }

  lemma VerifiedAppend(blocks: seq<BlockRow>, row: BlockRow, id: Id)
    ensures Verified(blocks + [row], id) == Verified(blocks, id) + if row.leaseId == id && Counts(row) then 1 else 0
  {
    assert (blocks + [row])[..|blocks|] == blocks;
  }

  lemma {:induction false} NoRowsNoCount(blocks: seq<BlockRow>, id: Id)
    requires forall i :: 0 <= i < |blocks| ==> blocks[i].leaseId != id
    ensures Verified(blocks, id) == 0
  {
    if blocks != [] {
      NoRowsNoCount(blocks[..|blocks| - 1], id);
    }
  }

  lemma ReportKeepsCount(t: Tables, chain: Option<Chain>, r: Report)
    requires Counted(t)
    ensures Counted(Reported(t, chain, r))
  {
    hide Lookup, PrefixValid, Counts, Verified;
    var after := Reported(t, chain, r);
    if after != t {
      var row := after.blocks[|t.blocks|];
      assert after.blocks == t.blocks + [row];
      forall id | id in after.leases ensures id != "" && after.leases[id].blocksFound == Verified(after.blocks, id) {
        VerifiedAppend(t.blocks, row, id);
      }
    }
  }

  /** With a chain, a report is verified if and only if its exact key is on the chain and fewer than a hundred newer
      blocks share its 16-character prefix; the id noted is that block's. */
  lemma VerifiedIff(chain: Chain, key: string)
    requires Consistent(chain)
    ensures Lookup(Some(chain), key).0 <==> exists i :: 0 <= i < |chain.blocks| && Reachable(chain.blocks, key, 100, i)
    ensures Lookup(Some(chain), key).0 ==> key in chain.known && Lookup(Some(chain), key).1.Some?
  {
    hide Hits, Reachable, Paid;
    FoundIff(chain, key, LIMIT);
    var found := Newest(Hits(chain.blocks, Take16(key)), LIMIT);
    var b := FirstWithKey(found, key);
    if b.Some? {
      var i := FoundIsReachable(chain, key, LIMIT, b.value);
      ReachableKey(chain.blocks, key, LIMIT, i);
    }
  }

  lemma ReachableKey(blocks: seq<ChainBlock>, key: string, limit: nat, i: nat)
    requires Reachable(blocks, key, limit, i)
    ensures i < |blocks| && blocks[i].key == key
  {
  }

  /** Every row of a lease that is marked chain-verified names a key the chain knows. */
  ghost predicate RowsOnChain(t: Tables, chain: Chain) {
    forall i :: 0 <= i < |t.blocks| && t.blocks[i].leaseId != "" && t.blocks[i].chainVerified ==> t.blocks[i].key in chain.known
  }

  lemma ReportKeepsRowsOnChain(t: Tables, chain: Chain, r: Report)
    requires RowsOnChain(t, chain) && Consistent(chain)
    ensures RowsOnChain(Reported(t, Some(chain), r), chain)
  {
    hide Lookup, Consistent;
    VerifiedIff(chain, r.key);
  }

  // ----- Blocks mined without a lease -----

  /** How many rows without a lease a worker reported. */
  function SelfRows(blocks: seq<BlockRow>, worker: Id): nat {
    if blocks == [] then 0
    else
      var last := blocks[|blocks| - 1];
      SelfRows(blocks[..|blocks| - 1], worker) + if last.leaseId == "" && last.worker == worker then 1 else 0
  }

  /** The worker's own counter; a worker without a row has counted none. */
  function SelfOf(workers: map<Id, Worker>, worker: Id): nat {
    if worker in workers then workers[worker].selfBlocks else 0
  }

  /** How many rows without a lease the worker's own counter is behind. */
  function Behind(t: Tables, worker: Id): int {
    SelfRows(t.blocks, worker) - SelfOf(t.workers, worker)
  }

  /** The report of a block without a lease from a worker that is not registered. */
  predicate Unregistered(t: Tables, r: Report, worker: Id) {
    r.leaseId == "" && r.worker == worker && worker !in t.workers
  }

  lemma SelfRowsAppend(blocks: seq<BlockRow>, row: BlockRow, worker: Id)
    ensures SelfRows(blocks + [row], worker)
         == SelfRows(blocks, worker) + if row.leaseId == "" && row.worker == worker then 1 else 0
  {
    assert (blocks + [row])[..|blocks|] == blocks;
  }

  /** A report widens the gap between rows and counter exactly when the worker is not registered. */
  lemma ReportSelf(t: Tables, chain: Option<Chain>, r: Report, worker: Id)
    ensures Behind(Reported(t, chain, r), worker) == Behind(t, worker) + if Unregistered(t, r, worker) then 1 else 0
  {
    hide Lookup, PrefixValid, SelfRows;
    var a := Reported(t, chain, r);
    if a.blocks != t.blocks {
      var row := a.blocks[|t.blocks|];
      assert a.blocks == t.blocks + [row];
      SelfRowsAppend(t.blocks, row, worker);
    }
  }

  // ----- The watcher -----

  class BlockWatcher {
    const db: Connection
    const chain: ChainSimulator?

    constructor (db: Connection, chain: ChainSimulator?)
      ensures this.db == db && this.chain == chain
    {
      this.db, this.chain := db, chain;
    }

    function ChainView(): Option<Chain>
      reads chain
    {
      if chain == null then None else Some(chain.View())
    }

    /** The scan for an exact key among the blocks on the same prefix. */
    method Scan(key: string) returns (verified: bool, blockId: Option<nat>)
      ensures (verified, blockId) == Lookup(ChainView(), key)
    {
      if chain == null {
        return true, None;
      }
      var found := chain.GetBlocksByKeyPrefix(Take16(key), LIMIT);
      verified, blockId := false, None;
      for i := 0 to |found|
        invariant !verified && blockId == None && FirstWithKey(found, key) == FirstWithKey(found[i..], key)
      {
        if found[i].key == key {
          verified, blockId := true, Some(found[i].blockId);
          break;
        }
      }
    }

    method HandleBlockFound(r: Report)
      modifies db
      ensures db.View() == Reported(old(db.View()), old(ChainView()), r)
    {
      hide Lookup;
      if r.leaseId == "" {
        HandleSelfMinedBlock(r);
        return;
      }
      if r.leaseId !in db.leases {
        return;
      }
      var lease := db.leases[r.leaseId];
      var prefixValid := true;
      if lease.prefix != "" {
        prefixValid := Lower(Take16(r.key)) == Lower(lease.prefix);
      }
      var verified, blockId := Scan(r.key);
      db.blocks := db.blocks + [BlockRow(r.leaseId, r.worker, r.hash, r.key, r.account, prefixValid, verified, blockId)];
      if verified && prefixValid {
        db.leases := db.leases[r.leaseId := lease.(blocksFound := lease.blocksFound + 1)];
      }
    }

    method HandleSelfMinedBlock(r: Report)
      modifies db
      ensures db.View() == SelfMined(old(db.View()), r)
    {
      db.blocks := db.blocks + [BlockRow("", r.worker, r.hash, r.key, r.account, true, true, None)];
      if r.worker in db.workers {
        db.workers := db.workers[r.worker := db.workers[r.worker].(selfBlocks := db.workers[r.worker].selfBlocks + 1)];
      }
    }
  }
}
