/** Workers and leases (server/matcher.py, server/storage/leases.py, server/storage/workers.py). */
module Matcher {
  import opened Common
  import opened Ledger
  import opened Database
  import Accounts

  // ----- The handlers as functions of the tables -----

  /** ON CONFLICT keeps everything the message does not carry; a new worker gets the schema's defaults. */
  function Upserted(t: Tables, id: Id): Tables {
    var w := if id in t.workers then t.workers[id].(state := AVAILABLE)
             else Worker(AVAILABLE, 0.60, 60, 86400, 0.0, 0);
    t.(workers := t.workers[id := w])
  }

  function Registered(t: Tables, id: Id): Tables {
    Upserted(t, id).(books := Created(t.books, id, Provider, 0.0))
  }

  function WithState(t: Tables, id: Id, state: string): Tables {
    if id in t.workers then t.(workers := t.workers[id := t.workers[id].(state := state)]) else t
  }

  function Sampled(lease: Lease, hashrate: real): Lease {
    lease.(hashrateSum := lease.hashrateSum + hashrate, hashrateCount := lease.hashrateCount + 1)
  }

  /** A heartbeat updates its worker and the worker's active lease. */
  function HeartbeatSeen(t: Tables, id: Id, hashrate: real): Tables {
    t.(workers := if id in t.workers then t.workers[id := t.workers[id].(hashrate := hashrate)] else t.workers,
       leases := map l | l in t.leases ::
         if IsActiveLease(t.leases, l, id) then Sampled(t.leases[l], hashrate) else t.leases[l])
  }

  /** set_pricing: an unknown worker is reported as None in the source, the other refusals raise. */
  function Priced(t: Tables, id: Id, pricePerMin: real, minDuration: int, maxDuration: int): Tables {
    if id !in t.workers || pricePerMin < 0.0 || minDuration < 1 || maxDuration < minDuration then t
    else t.(workers := t.workers[id := t.workers[id].(pricePerMin := pricePerMin, minDuration := minDuration,
                                                       maxDuration := maxDuration)])
  }

  predicate Rentable(t: Tables, id: Id) {
    id in t.workers && t.workers[id].state == AVAILABLE && !HasActiveLease(t.leases, id)
  }

  /** The named worker, or the first rentable one in the order the table is scanned. */
  function Pick(t: Tables, wanted: Id, scan: seq<Id>): (w: Option<Id>)
    ensures w.Some? ==> Rentable(t, w.value)
  {
    if wanted != "" then (if Rentable(t, wanted) then Some(wanted) else None)
    else if scan == [] then None
    else if Rentable(t, scan[0]) then Some(scan[0])
    else Pick(t, wanted, scan[1..])
  }

  datatype RentOutcome = Rented | NoWorker | Rejected

  datatype RentRequest = RentRequest(consumer: Id, address: string, duration: int, wanted: Id, uuid: string, prefix: string)

  function LeaseId(r: RentRequest): Id {
    "lease-" + r.uuid
  }

  function NewLease(t: Tables, r: RentRequest, worker: Id, now: real): Lease
    requires worker in t.workers
  {
    Lease(worker, r.consumer, r.address, r.prefix, r.duration, t.workers[worker].pricePerMin / 60.0, Active, now, None,
          0, 0.0, 0)
  }

  /** Rejected stands for the IntegrityError of the INSERT: unknown consumer or reused lease id. */
  function RentedTables(t: Tables, r: RentRequest, scan: seq<Id>, now: real): (Tables, RentOutcome) {
    var target := Pick(t, r.wanted, scan);
    if target.None? then (t, NoWorker)
    else if LeaseId(r) in t.leases || r.consumer !in t.books.accounts then (t, Rejected)
    else
      var lease := NewLease(t, r, target.value, now);
      (WithState(t.(leases := t.leases[LeaseId(r) := lease]), target.value, LEASED), Rented)
  }

  function Ended(lease: Lease, now: real): Lease {
    lease.(state := Completed, endedAt := Some(now))
  }

  function Stopped(t: Tables, id: Id, now: real): (Tables, bool) {
    if id !in t.leases || t.leases[id].state != Active then (t, false)
    else (WithState(t.(leases := t.leases[id := Ended(t.leases[id], now)]), t.leases[id].worker, AVAILABLE), true)
  }

  predicate IsExpired(lease: Lease, now: real) {
    lease.state == Active && lease.createdAt + lease.duration as real < now
  }

  /** All expired leases end at once and their workers become available. */
  function Expired(t: Tables, now: real): Tables {
    t.(leases := map l | l in t.leases :: if IsExpired(t.leases[l], now) then Ended(t.leases[l], now) else t.leases[l],
       workers := map w | w in t.workers ::
         if exists l :: l in t.leases && IsExpired(t.leases[l], now) && t.leases[l].worker == w
         then t.workers[w].(state := AVAILABLE) else t.workers[w])
  }

  /** A duplicate-free list of exactly the expired leases, in whatever order the query returns them. */
  ghost predicate ListsExpired(t: Tables, now: real, list: seq<Id>) {
    && (forall i, j :: 0 <= i < j < |list| ==> list[i] != list[j])
    && (forall id :: id in list <==> id in t.leases && IsExpired(t.leases[id], now))
  }

  // ----- What the handlers change, row by row -----

  /** The worker says it is available and no active lease names it. */
  ghost predicate Free(t: Tables, id: Id) {
    && id in t.workers && t.workers[id].state == "AVAILABLE"
    && forall l :: l in t.leases && t.leases[l].worker == id ==> t.leases[l].state != Active
  }

  lemma RentableIsFree(t: Tables, id: Id)
    ensures Rentable(t, id) <==> Free(t, id)
  {
    if Rentable(t, id) {
      forall l | l in t.leases && t.leases[l].worker == id ensures t.leases[l].state != Active {
        assert t.leases[l].state == Active ==> IsActiveLease(t.leases, l, id);
      }
    }
  }

  /** Asked for by name, a worker is taken exactly when it is free; otherwise the first free one of the scan is, and
      none exactly when none of the scan is free. */
  lemma {:induction false} PickIsFirstFree(t: Tables, wanted: Id, scan: seq<Id>)
    ensures wanted != "" ==> Pick(t, wanted, scan) == if Free(t, wanted) then Some(wanted) else None
    ensures wanted == "" ==> (Pick(t, wanted, scan).None? <==> forall i :: 0 <= i < |scan| ==> !Free(t, scan[i]))
    ensures wanted == "" && Pick(t, wanted, scan).Some? ==>
      exists i :: 0 <= i < |scan| && Pick(t, wanted, scan) == Some(scan[i]) && forall j :: 0 <= j < i ==> !Free(t, scan[j])
  {
    hide Rentable, Free;
    RentableIsFree(t, wanted);
    if wanted == "" && scan != [] {
      RentableIsFree(t, scan[0]);
      if Free(t, scan[0]) {
        assert Pick(t, wanted, scan) == Some(scan[0]);
      } else {
        PickIsFirstFree(t, wanted, scan[1..]);
        assert forall i :: 0 < i < |scan| ==> scan[i] == scan[1..][i - 1];
        if Pick(t, wanted, scan).Some? {
          var k :| 0 <= k < |scan[1..]| && Pick(t, wanted, scan) == Some(scan[1..][k])
                   && forall j :: 0 <= j < k ==> !Free(t, scan[1..][j]);
          assert Pick(t, wanted, scan) == Some(scan[k + 1]);
          forall j | 0 <= j < k + 1 ensures !Free(t, scan[j]) {
            assert j > 0 ==> !Free(t, scan[1..][j - 1]);
          }
        }
      }
    }
  }

  /** A rental fails without effect, or adds one lease with the request's terms at a sixtieth of the worker's price per
      minute and marks the worker; nothing else changes. */
  lemma RentedRows(t: Tables, r: RentRequest, scan: seq<Id>, now: real)
    ensures var (a, o) := RentedTables(t, r, scan, now);
            var target := Pick(t, r.wanted, scan);
            && (o == NoWorker <==> target.None?)
            && (o == Rejected <==> target.Some? && ("lease-" + r.uuid in t.leases || r.consumer !in t.books.accounts))
            && (o != Rented ==> a == t)
            && (o == Rented ==>
                  var w := t.workers[target.value];
                  && a.leases == t.leases["lease-" + r.uuid :=
                       Lease(target.value, r.consumer, r.address, r.prefix, r.duration, w.pricePerMin / 60.0, Active, now, None, 0, 0.0, 0)]
                  && a.workers == t.workers[target.value :=
                       Worker("LEASED", w.pricePerMin, w.minDuration, w.maxDuration, w.hashrate, w.selfBlocks)]
                  && a.books == t.books && a.settlements == t.settlements && a.blocks == t.blocks)
  {
    hide Pick;
  }

  /** `b` is `a`, ended at `now`. */
  ghost predicate EndedAt(a: Lease, b: Lease, now: real) {
    && b.state == Completed && b.endedAt == Some(now)
    && b.worker == a.worker && b.consumer == a.consumer && b.address == a.address && b.prefix == a.prefix
    && b.duration == a.duration && b.pricePerSec == a.pricePerSec && b.createdAt == a.createdAt
    && b.blocksFound == a.blocksFound && b.hashrateSum == a.hashrateSum && b.hashrateCount == a.hashrateCount
  }

  ghost predicate FreedAgain(a: Worker, b: Worker) {
    && b.state == "AVAILABLE" && b.pricePerMin == a.pricePerMin && b.minDuration == a.minDuration
    && b.maxDuration == a.maxDuration && b.hashrate == a.hashrate && b.selfBlocks == a.selfBlocks
  }

  /** Stopping ends the one lease, if it is active, and frees its worker. */
  lemma StoppedRows(t: Tables, id: Id, now: real)
    ensures var (a, stopped) := Stopped(t, id, now);
            && (stopped <==> id in t.leases && t.leases[id].state == Active)
            && (!stopped ==> a == t)
            && (stopped ==>
                  && a.leases.Keys == t.leases.Keys && a.workers.Keys == t.workers.Keys
                  && EndedAt(t.leases[id], a.leases[id], now)
                  && (forall l :: l in t.leases && l != id ==> a.leases[l] == t.leases[l])
                  && (forall w :: w in t.workers ==> if w == t.leases[id].worker then FreedAgain(t.workers[w], a.workers[w])
                                                     else a.workers[w] == t.workers[w])
                  && a.books == t.books && a.settlements == t.settlements && a.blocks == t.blocks)
  {
  }

  /** A round ends exactly the active leases older than their duration, at the present moment, and frees exactly their
      workers. */
  lemma ExpiredRows(t: Tables, now: real)
    ensures var a := Expired(t, now);
            && a.leases.Keys == t.leases.Keys && a.workers.Keys == t.workers.Keys
            && a.books == t.books && a.settlements == t.settlements && a.blocks == t.blocks
            && (forall l :: l in t.leases ==>
                  if t.leases[l].state == Active && now - t.leases[l].createdAt > t.leases[l].duration as real
                  then EndedAt(t.leases[l], a.leases[l], now) else a.leases[l] == t.leases[l])
            && (forall w :: w in t.workers ==>
                  if exists l :: l in t.leases && t.leases[l].worker == w && t.leases[l].state == Active
                                 && now - t.leases[l].createdAt > t.leases[l].duration as real
                  then FreedAgain(t.workers[w], a.workers[w]) else a.workers[w] == t.workers[w])
  {
  }

  /** A registration keeps a known worker's terms and gives a new one the defaults; a heartbeat sets the hash rate and
      samples it into the worker's active lease; a price is set together with both bounds. */
  lemma WorkerRows(t: Tables, id: Id, hashrate: real, pricePerMin: real, minDuration: int, maxDuration: int)
    ensures var a := Registered(t, id);
            && a.leases == t.leases && a.settlements == t.settlements && a.blocks == t.blocks
            && id in a.workers && a.workers == t.workers[id := a.workers[id]]
            && (id in t.workers ==> FreedAgain(t.workers[id], a.workers[id]))
            && (id !in t.workers ==> a.workers[id] == Worker("AVAILABLE", 0.6, 60, 86400, 0.0, 0))
            && a.books.transactions == t.books.transactions
            && a.books.accounts == if id in t.books.accounts then t.books.accounts else t.books.accounts[id := Account(Provider, 0.0)]
    ensures var a := HeartbeatSeen(t, id, hashrate);
            && (id in t.workers ==> a.workers == t.workers[id := t.workers[id].(hashrate := hashrate)])
            && (id !in t.workers ==> a.workers == t.workers) && a.leases.Keys == t.leases.Keys
            && forall l :: l in t.leases ==>
                 a.leases[l] == if t.leases[l].worker == id && t.leases[l].state == Active
                                then t.leases[l].(hashrateSum := t.leases[l].hashrateSum + hashrate,
                                                  hashrateCount := t.leases[l].hashrateCount + 1)
                                else t.leases[l]
    ensures var a := Priced(t, id, pricePerMin, minDuration, maxDuration);
            if id in t.workers && pricePerMin >= 0.0 && 1 <= minDuration <= maxDuration
            then a == t.(workers := t.workers[id := Worker(t.workers[id].state, pricePerMin, minDuration, maxDuration,
                                                           t.workers[id].hashrate, t.workers[id].selfBlocks)])
            else a == t
  {
  }

  // ----- Lease exclusivity and the foreign keys -----

  /** The heart of exclusivity: renting consults the leases, not the worker's own status, so a worker that called
      itself AVAILABLE in the middle of a lease is still not rented twice. */
  lemma RentKeepsConstraints(t: Tables, r: RentRequest, scan: seq<Id>, now: real)
    requires Constraints(t)
    ensures Constraints(RentedTables(t, r, scan, now).0)
  {
    var after := RentedTables(t, r, scan, now).0;
    forall a, b, w | IsActiveLease(after.leases, a, w) && IsActiveLease(after.leases, b, w) ensures a == b {
      if a != LeaseId(r) {
        assert IsActiveLease(t.leases, a, w) || after == t;
      }
      if b != LeaseId(r) {
        assert IsActiveLease(t.leases, b, w) || after == t;
      }
    }
  }

  lemma StopKeepsConstraints(t: Tables, id: Id, now: real)
    requires Constraints(t)
    ensures Constraints(Stopped(t, id, now).0)
  {
    var after := Stopped(t, id, now).0;
    forall a, b, w | IsActiveLease(after.leases, a, w) && IsActiveLease(after.leases, b, w) ensures a == b {
      assert IsActiveLease(t.leases, a, w) && IsActiveLease(t.leases, b, w);
    }
  }

  lemma ExpireKeepsConstraints(t: Tables, now: real)
    requires Constraints(t)
    ensures Constraints(Expired(t, now))
  {
    var after := Expired(t, now);
    forall a, b, w | IsActiveLease(after.leases, a, w) && IsActiveLease(after.leases, b, w) ensures a == b {
      assert IsActiveLease(t.leases, a, w) && IsActiveLease(t.leases, b, w);
    }
  }

  // ----- The engine -----

  class MatchingEngine {
    const db: Connection
    const accounts: Accounts.AccountRepo

    constructor (db: Connection, accounts: Accounts.AccountRepo)
      ensures this.db == db && this.accounts == accounts
    {
      this.db, this.accounts := db, accounts;
    }

    method RegisterWorker(id: Id)
      requires accounts.db == db
      modifies db
      ensures db.View() == Registered(old(db.View()), id)
    {
      if id in db.workers {
        db.workers := db.workers[id := db.workers[id].(state := AVAILABLE)];
      } else {
        db.workers := db.workers[id := Worker(AVAILABLE, 0.60, 60, 86400, 0.0, 0)];
      }
      accounts.GetOrCreateProvider(id);
    }

    method UpdateState(id: Id, state: string)
      modifies db`workers
      ensures db.View() == WithState(old(db.View()), id, state)
    {
      if id in db.workers {
        db.workers := db.workers[id := db.workers[id].(state := state)];
      }
    }

    /** SELECT lease_id ... WHERE worker_id = ? AND state = 'active', first row. */
    method ActiveLeaseFor(worker: Id) returns (lease: Option<Id>)
      ensures lease.None? <==> !HasActiveLease(db.leases, worker)
      ensures lease.Some? ==> IsActiveLease(db.leases, lease.value, worker)
    {
      if id :| id in db.leases && IsActiveLease(db.leases, id, worker) {
        lease := Some(id);
      } else {
        lease := None;
      }
    }

    method UpdateHeartbeat(id: Id, hashrate: real)
      requires Exclusive(db.leases)
      modifies db
      ensures db.View() == HeartbeatSeen(old(db.View()), id, hashrate)
    {
      if id in db.workers {
        db.workers := db.workers[id := db.workers[id].(hashrate := hashrate)];
      }
      var lease := ActiveLeaseFor(id);
      if lease.Some? {
        db.leases := db.leases[lease.value := Sampled(db.leases[lease.value], hashrate)];
        assert db.leases == HeartbeatSeen(old(db.View()), id, hashrate).leases;
      } else {
        assert db.leases == HeartbeatSeen(old(db.View()), id, hashrate).leases;
      }
    }

    /** The search of rent_hashpower. `scan` is the order in which the workers table is read. */
    method FindTarget(wanted: Id, scan: seq<Id>) returns (target: Option<Id>)
      ensures target == Pick(db.View(), wanted, scan)
    {
      target := None;
      if wanted != "" {
        var active := ActiveLeaseFor(wanted);
        if wanted in db.workers && db.workers[wanted].state == AVAILABLE && active.None? {
          target := Some(wanted);
        }
        return;
      }
      for i := 0 to |scan|
        invariant target == None && Pick(db.View(), wanted, scan) == Pick(db.View(), wanted, scan[i..])
      {
        var w := scan[i];
        if w in db.workers && db.workers[w].state == AVAILABLE {
          var active := ActiveLeaseFor(w);
          if active.None? {
            target := Some(w);
            break;
          }
        }
      }
    }

    method RentHashpower(r: RentRequest, scan: seq<Id>, now: real) returns (outcome: RentOutcome)
      requires Constraints(db.View())
      modifies db
      ensures (db.View(), outcome) == RentedTables(old(db.View()), r, scan, now)
      ensures Constraints(db.View())
    {
      var target := FindTarget(r.wanted, scan);
      if target.None? {
        return NoWorker;
      }
      if LeaseId(r) in db.leases || r.consumer !in db.accounts {
        return Rejected;
      }
      RentKeepsConstraints(db.View(), r, scan, now);
      db.leases := db.leases[LeaseId(r) := NewLease(db.View(), r, target.value, now)];
      UpdateState(target.value, LEASED);
      return Rented;
    }

    method StopLease(id: Id, now: real) returns (stopped: bool)
      requires Constraints(db.View())
      modifies db
      ensures (db.View(), stopped) == Stopped(old(db.View()), id, now)
      ensures Constraints(db.View())
    {
      if id !in db.leases || db.leases[id].state != Active {
        return false;
      }
      StopKeepsConstraints(db.View(), id, now);
      var worker := db.leases[id].worker;
      db.leases := db.leases[id := Ended(db.leases[id], now)];
      UpdateState(worker, AVAILABLE);
      return true;
    }

    /** SELECT lease_id ... WHERE state = 'active' AND created_at + duration_sec < now, in any row order. */
    method FindExpired(now: real) returns (list: seq<Id>)
      ensures ListsExpired(db.View(), now, list)
    {
      var rest := set id | id in db.leases && IsExpired(db.leases[id], now);
      ghost var all := rest;
      list := [];
      while rest != {}
        invariant rest <= all && (forall id :: id in all <==> id in rest || id in list)
        invariant forall id :: id in list ==> id !in rest
        invariant forall i, j :: 0 <= i < j < |list| ==> list[i] != list[j]
        decreases rest
      {
        var id :| id in rest;
        list, rest := list + [id], rest - {id};
      }
    }

    /** One pass of the loop in check_expired_leases. */
    method Complete(id: Id, now: real)
      requires id in db.leases
      modifies db`leases, db`workers
      ensures db.leases == old(db.leases)[id := Ended(old(db.leases[id]), now)]
      ensures db.workers == WithState(old(db.View()), old(db.leases[id].worker), AVAILABLE).workers
    {
      db.leases := db.leases[id := Ended(db.leases[id], now)];
      UpdateState(db.leases[id].worker, AVAILABLE);
    }

    method CheckExpiredLeases(now: real) returns (completed: seq<Id>)
      requires Constraints(db.View())
      modifies db`leases, db`workers
      ensures ListsExpired(old(db.View()), now, completed)
      ensures db.View() == Expired(old(db.View()), now) && Constraints(db.View())
    {
      hide FreedWorkers, Expired, Exclusive;
      completed := FindExpired(now);
      ghost var was := db.View();
      NoneCompleted(was, now);
      for i := 0 to |completed|
        invariant db.leases == EndedLeases(was.leases, completed[..i], now)
        invariant db.workers == FreedWorkers(was.workers, was.leases, completed[..i])
      {
        assert completed[..i + 1] == completed[..i] + [completed[i]];
        assert completed[i] in completed && completed[i] !in completed[..i];
        CompleteOne(was, completed[..i], completed[i], now);
        Complete(completed[i], now);
      }
      assert completed[..|completed|] == completed;
      CompleteAll(was, completed, now);
      ExpireKeepsConstraints(was, now);
    }
  }

  /** The provider's side of pricing (server/pricing.py). */
  class PricingEngine {
    const db: Connection

    constructor (db: Connection)
      ensures this.db == db
    {
      this.db := db;
    }

    /** An unknown worker is reported as None, a refused price or duration as an exception; neither changes anything. */
    method SetPricing(id: Id, pricePerMin: real, minDuration: int, maxDuration: int) returns (outcome: Outcome)
      modifies db
      ensures db.View() == Priced(old(db.View()), id, pricePerMin, minDuration, maxDuration)
      ensures outcome == KeyError <==> id !in old(db.workers)
      ensures outcome == Done <==> id in old(db.workers) && pricePerMin >= 0.0 && 1 <= minDuration <= maxDuration
    {
      if id !in db.workers {
        return KeyError;
      }
      if pricePerMin < 0.0 {
        return ValueError;
      }
      if minDuration < 1 {
        return ValueError;
      }
      if maxDuration < minDuration {
        return ValueError;
      }
      db.workers := db.workers[id := db.workers[id].(pricePerMin := pricePerMin, minDuration := minDuration,
                                                     maxDuration := maxDuration)];
      return Done;
    }
  }

  /** The leases after the listed ones have ended. */
  ghost function EndedLeases(leases: map<Id, Lease>, list: seq<Id>, now: real): map<Id, Lease> {
    map l | l in leases :: if l in list then Ended(leases[l], now) else leases[l]
  }

  /** The workers after those of the listed leases have been made available. */
  ghost function FreedWorkers(workers: map<Id, Worker>, leases: map<Id, Lease>, list: seq<Id>): map<Id, Worker> {
    map w | w in workers ::
      if exists l :: l in list && l in leases && leases[l].worker == w then workers[w].(state := AVAILABLE) else workers[w]
  }

  lemma NoneCompleted(t: Tables, now: real)
    ensures EndedLeases(t.leases, [], now) == t.leases && FreedWorkers(t.workers, t.leases, []) == t.workers
  {
  }

  lemma CompleteOne(t: Tables, list: seq<Id>, id: Id, now: real)
    requires id in t.leases && id !in list
    ensures EndedLeases(t.leases, list + [id], now)
         == EndedLeases(t.leases, list, now)[id := Ended(EndedLeases(t.leases, list, now)[id], now)]
    ensures FreedWorkers(t.workers, t.leases, list + [id])
         == WithState(t.(workers := FreedWorkers(t.workers, t.leases, list)), t.leases[id].worker, AVAILABLE).workers
  {
    var before, after := FreedWorkers(t.workers, t.leases, list), FreedWorkers(t.workers, t.leases, list + [id]);
    forall w | w in t.workers
      ensures after[w] == if w == t.leases[id].worker then before[w].(state := AVAILABLE) else before[w]
    {
      assert id in list + [id];
      assert forall l :: l in list + [id] <==> l in list || l == id;
    }
  }

  lemma CompleteAll(t: Tables, list: seq<Id>, now: real)
    requires ListsExpired(t, now, list)
    ensures Expired(t, now) == t.(leases := EndedLeases(t.leases, list, now), workers := FreedWorkers(t.workers, t.leases, list))
  {
    var freed, expired := FreedWorkers(t.workers, t.leases, list), Expired(t, now);
    assert expired.leases == EndedLeases(t.leases, list, now);
    forall w | w in t.workers ensures freed[w] == expired.workers[w] {
    }
    assert expired.workers == freed;
  }
}
