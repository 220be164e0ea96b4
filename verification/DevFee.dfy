/** The developer-fee schedule, written once for the GPU loop in src/MineUnit.cpp and once for the CPU workers in
    src/main.cpp. */
module DevFee {

  datatype Recipient = Consumer | User | Developer | Ecosystem

  /** Whom a batch is mined for before any fee: a platform lease, the user under a prefix override, or the user alone.
      */
  datatype Mode = Platform | Prefixed | Plain

  const CYCLE: nat := 1000
  const WRAP: nat := 0x1_0000_0000_0000_0000

  /** Batch number `count` of a cycle on a GPU. */
  function GpuRecipient(count: nat, permillage: int, ecosystem: bool): Recipient
    requires count < CYCLE
  {
    if 1000 - count <= permillage then
      if 1000 - count <= permillage / 2 && ecosystem then Ecosystem else Developer
    else User
  }

  function AsUint64(n: int): (u: nat)
    ensures u < WRAP
  {
    n % WRAP
  }

  /** Slot number `slot` of the CPU workers' shared sequence; the subtractions are on 64-bit unsigned numbers. */
  function CpuRecipient(slot: nat, permillage: int, ecosystem: bool): Recipient
    requires slot < CYCLE
  {
    if permillage <= 0 then User
    else if slot >= AsUint64(1000 - AsUint64(permillage)) then
      if ecosystem && slot >= AsUint64(1000 - AsUint64(permillage / 2)) then Ecosystem else Developer
    else User
  }

  /** The two schedules agree on every slot exactly up to 1000, the largest value the program starts with; above that
      the CPU's fee start would wrap around and no fee be taken. */
  lemma SchedulesAgreeIff(permillage: int, ecosystem: bool)
    requires permillage < 0x8000_0000
    ensures (forall slot: nat :: slot < CYCLE ==>
               GpuRecipient(slot, permillage, ecosystem) == CpuRecipient(slot, permillage, ecosystem))
            <==> permillage <= 1000
  {
    if permillage > 1000 {
      assert AsUint64(1000 - AsUint64(permillage)) == 1000 - permillage + WRAP;
      assert GpuRecipient(0, permillage, ecosystem) != CpuRecipient(0, permillage, ecosystem);
    } else if permillage > 0 {
      assert AsUint64(1000 - AsUint64(permillage)) == 1000 - permillage;
      assert AsUint64(1000 - AsUint64(permillage / 2)) == 1000 - permillage / 2;
    }
  }

  // ----- Whole cycles -----

  /** How many of the batches start, start + 1, ... are among the last `q` of their cycle. */
  function Tally(start: nat, n: nat, q: nat): nat {
    if n == 0 then 0 else Tally(start, n - 1, q) + if (start + n - 1) % 1000 >= 1000 - q then 1 else 0
  }

  /** The same count for the batches before `n`, in closed form. */
  function Before(n: nat, q: nat): int {
    q * (n / 1000) + if n % 1000 > 1000 - q then n % 1000 - (1000 - q) else 0
  }

  lemma BeforeStep(n: nat, q: nat)
    requires q <= 1000
    ensures Before(n + 1, q) == Before(n, q) + if n % 1000 >= 1000 - q then 1 else 0
  {
    if n % 1000 == 999 {
      assert (n + 1) / 1000 == n / 1000 + 1 && (n + 1) % 1000 == 0;
      assert q * (n / 1000 + 1) == q * (n / 1000) + q;
    } else {
      assert (n + 1) / 1000 == n / 1000 && (n + 1) % 1000 == n % 1000 + 1;
    }
  }

  lemma {:induction false} TallyClosed(start: nat, n: nat, q: nat)
    requires q <= 1000
    ensures Tally(start, n, q) == Before(start + n, q) - Before(start, q)
  {
    hide Before;
    if n > 0 {
      TallyClosed(start, n - 1, q);
      BeforeStep(start + n - 1, q);
    }
  }

  /** Any 1000 consecutive batches, wherever they begin. */
  lemma AnyWindow(start: nat, q: nat)
    requires q <= 1000
    ensures Tally(start, 1000, q) == q
  {
    TallyClosed(start, 1000, q);
    assert (start + 1000) / 1000 == start / 1000 + 1 && (start + 1000) % 1000 == start % 1000;
    assert q * (start / 1000 + 1) == q * (start / 1000) + q;
  }

  function Count(rs: seq<Recipient>, r: Recipient): nat {
    if rs == [] then 0 else Count(rs[..|rs| - 1], r) + if rs[|rs| - 1] == r then 1 else 0
  }

  /** The recipients of `n` plain batches from batch number `start` on. */
  function Recipients(start: nat, n: nat, permillage: int, ecosystem: bool): (rs: seq<Recipient>)
    ensures |rs| == n
  {
    if n == 0 then []
    else Recipients(start, n - 1, permillage, ecosystem) + [GpuRecipient((start + n - 1) % 1000, permillage, ecosystem)]
  }

  lemma CountSnoc(rs: seq<Recipient>, last: Recipient, r: Recipient)
    ensures Count(rs + [last], r) == Count(rs, r) + if last == r then 1 else 0
  {
    assert (rs + [last])[..|rs|] == rs;
  }

  lemma NothingCounted(start: nat, permillage: nat, ecosystem: bool)
    ensures Tally(start, 0, permillage) == 0 && Tally(start, 0, permillage / 2) == 0
    ensures forall r :: Count(Recipients(start, 0, permillage, ecosystem), r) == 0
  {
  }

  lemma FeeSlots(count: nat, permillage: nat, ecosystem: bool)
    requires count < CYCLE && permillage <= 1000
    ensures var r := GpuRecipient(count, permillage, ecosystem);
            (r == Developer || r == Ecosystem <==> count >= 1000 - permillage)
            && (r == Ecosystem <==> ecosystem && count >= 1000 - permillage / 2)
  {
  }

  lemma {:induction false} RecipientsCounted(start: nat, n: nat, permillage: nat, ecosystem: bool)
    requires permillage <= 1000
    ensures var rs := Recipients(start, n, permillage, ecosystem);
            && Count(rs, Developer) + Count(rs, Ecosystem) == Tally(start, n, permillage)
            && Count(rs, Ecosystem) == (if ecosystem then Tally(start, n, permillage / 2) else 0)
  {
    hide GpuRecipient, Count, Recipients, Tally;
    NothingCounted(start, permillage, ecosystem);
    if n > 0 {
      RecipientsCounted(start, n - 1, permillage, ecosystem);
      FeeSlots((start + n - 1) % 1000, permillage, ecosystem);
      CountsLast(start, n, permillage, ecosystem, Developer);
      CountsLast(start, n, permillage, ecosystem, Ecosystem);
      TallyLast(start, n, permillage);
      TallyLast(start, n, permillage / 2);
    }
  }

  lemma CountsLast(start: nat, n: nat, permillage: int, ecosystem: bool, r: Recipient)
    requires n > 0
    ensures Count(Recipients(start, n, permillage, ecosystem), r) ==
            Count(Recipients(start, n - 1, permillage, ecosystem), r)
            + if GpuRecipient((start + n - 1) % 1000, permillage, ecosystem) == r then 1 else 0
  {
    hide GpuRecipient;
    CountSnoc(Recipients(start, n - 1, permillage, ecosystem), GpuRecipient((start + n - 1) % 1000, permillage, ecosystem), r);
  }

  lemma TallyLast(start: nat, n: nat, q: nat)
    requires n > 0
    ensures Tally(start, n, q) == Tally(start, n - 1, q) + if (start + n - 1) % 1000 >= 1000 - q then 1 else 0
  {
  }

  /** Of any 1000 consecutive plain batches exactly `permillage` pay a fee, half of them (rounded down) to the
      ecosystem if it has an address. */
  lemma FeeShare(start: nat, permillage: nat, ecosystem: bool)
    requires permillage <= 1000
    ensures var rs := Recipients(start, 1000, permillage, ecosystem);
            var half := if ecosystem then permillage / 2 else 0;
            Count(rs, Ecosystem) == half && Count(rs, Developer) == permillage - half && Count(rs, User) == 1000 - permillage
  {
    hide Recipients, Tally, Count;
    var rs := Recipients(start, 1000, permillage, ecosystem);
    RecipientsCounted(start, 1000, permillage, ecosystem);
    AnyWindow(start, permillage);
    AnyWindow(start, permillage / 2);
    NoConsumer(start, 1000, permillage, ecosystem);
    CountsAddUp(rs);
  }

  lemma {:induction false} NoConsumer(start: nat, n: nat, permillage: int, ecosystem: bool)
    ensures Count(Recipients(start, n, permillage, ecosystem), Consumer) == 0
  {
    if n > 0 {
      NoConsumer(start, n - 1, permillage, ecosystem);
      CountsLast(start, n, permillage, ecosystem, Consumer);
    }
  }

  lemma {:induction false} CountsAddUp(rs: seq<Recipient>)
    ensures Count(rs, Consumer) + Count(rs, User) + Count(rs, Developer) + Count(rs, Ecosystem) == |rs|
  {
    if rs != [] {
      CountsAddUp(rs[..|rs| - 1]);
    }
  }

  // ----- The two loops -----

  class GpuUnit {
    var batchComputeCount: nat

    constructor ()
      ensures batchComputeCount == 0
    {
      batchComputeCount := 0;
    }

    /** One turn of the mining loop; every batch counts, whoever it is for. */
    method Batch(mode: Mode, permillage: int, ecosystem: bool) returns (r: Recipient)
      requires batchComputeCount < CYCLE
      modifies this
      ensures batchComputeCount == (old(batchComputeCount) + 1) % CYCLE
      ensures r == match mode
                   case Platform => Consumer
                   case Prefixed => User
                   case Plain => GpuRecipient(old(batchComputeCount), permillage, ecosystem)
    {
      if mode == Platform {
        r := Consumer;
      } else {
        r := User;
        if mode == Prefixed {
        } else if 1000 - batchComputeCount <= permillage {
          if 1000 - batchComputeCount <= permillage / 2 && ecosystem {
            r := Ecosystem;
          } else {
            r := Developer;
          }
        }
      }
      batchComputeCount := batchComputeCount + 1;
      if batchComputeCount >= 1000 {
        batchComputeCount := 0;
      }
    }

    /** An uninterrupted series of plain batches follows the schedule. */
    method PlainBatches(n: nat, permillage: int, ecosystem: bool) returns (rs: seq<Recipient>)
      requires batchComputeCount < CYCLE
      modifies this
      ensures rs == Recipients(old(batchComputeCount), n, permillage, ecosystem)
    {
      hide GpuRecipient;
      rs := [];
      for i := 0 to n
        invariant batchComputeCount == (old(batchComputeCount) + i) % 1000
        invariant rs == Recipients(old(batchComputeCount), i, permillage, ecosystem)
      {
        NextInCycle(old(batchComputeCount) + i);
        var r := Batch(Plain, permillage, ecosystem);
        rs := rs + [r];
      }
    }
  }

  lemma NextInCycle(n: nat)
    ensures (n % 1000 + 1) % 1000 == (n + 1) % 1000
  {
  }

  /** The sequence counter all CPU workers share; each plain batch takes the next number in one atomic step. */
  class CpuSequence {
    var next: nat

    constructor ()
      ensures next == 0
    {
      next := 0;
    }

    method Batch(mode: Mode, permillage: int, ecosystem: bool) returns (r: Recipient)
      requires next < WRAP && permillage < 0x8000_0000
      modifies this
      ensures next == if mode == Plain && permillage > 0 then (old(next) + 1) % WRAP else old(next)
      ensures r == match mode
                   case Platform => Consumer
                   case Prefixed => User
                   case Plain => CpuRecipient(old(next) % 1000, permillage, ecosystem)
    {
      if mode == Platform {
        return Consumer;
      }
      r := User;
      if mode == Plain && permillage > 0 {
        var slot := next % 1000;
        next := (next + 1) % WRAP;
        var feeStart := AsUint64(1000 - AsUint64(permillage));
        if slot >= feeStart {
          var useEcoFee := ecosystem && slot >= AsUint64(1000 - AsUint64(permillage / 2));
          r := if useEcoFee then Ecosystem else Developer;
        }
      }
    }

    /** Any uninterrupted series takes the slots of the wrapping counter, and follows the GPU's schedule exactly under
        the condition named. */
    method PlainBatches(n: nat, permillage: int, ecosystem: bool) returns (rs: seq<Recipient>)
      requires next < WRAP && permillage < 0x8000_0000
      modifies this
      ensures rs == CpuRecipients(old(next), n, permillage, ecosystem)
      ensures rs == Recipients(old(next), n, permillage, ecosystem) <==> Follows(old(next), n, permillage, ecosystem)
    {
      hide CpuRecipient;
      rs := [];
      for i := 0 to n
        invariant permillage > 0 ==> next == (old(next) + i) % WRAP
        invariant permillage <= 0 ==> next == old(next)
        invariant rs == CpuRecipients(old(next), i, permillage, ecosystem)
      {
        if permillage > 0 {
          NextSlot(old(next) + i);
        } else {
          NoFee(next % 1000, (old(next) + i) % WRAP % 1000, permillage, ecosystem);
        }
        var r := Batch(Plain, permillage, ecosystem);
        rs := rs + [r];
      }
      FollowsIff(old(next), n, permillage, ecosystem);
    }
  }

  lemma NextSlot(n: nat)
    ensures (n % WRAP + 1) % WRAP == (n + 1) % WRAP
  {
  }

  lemma NoFee(a: nat, b: nat, permillage: int, ecosystem: bool)
    requires a < CYCLE && b < CYCLE && permillage <= 0
    ensures CpuRecipient(a, permillage, ecosystem) == CpuRecipient(b, permillage, ecosystem) == User
  {
  }

  // ----- At the wrap-around of the shared counter -----

  /** The recipients of `n` plain CPU batches from counter value `start` on. */
  function CpuRecipients(start: nat, n: nat, permillage: int, ecosystem: bool): (rs: seq<Recipient>)
    ensures |rs| == n
  {
    if n == 0 then []
    else CpuRecipients(start, n - 1, permillage, ecosystem)
         + [CpuRecipient((start + n - 1) % WRAP % 1000, permillage, ecosystem)]
  }

  /** How far a series may run over the wrap-around: 2^64 is 616 more than a whole number of cycles, so slot 0 comes
      where slot 616 is due, and the two cycles agree until the latter reaches its fees. */
  function Slack(permillage: nat): nat {
    if permillage < 384 then 384 - permillage else 0
  }

  predicate Follows(start: nat, n: nat, permillage: int, ecosystem: bool) {
    || n == 0
    || permillage <= 0
    || (permillage == 1000 && !ecosystem)
    || (permillage <= 1000 && start + n <= WRAP + Slack(permillage))
  }

  /** One batch agrees with the schedule exactly when it is free of the wrap-around in the sense above. */
  predicate AgreesAt(start: nat, t: nat, permillage: int, ecosystem: bool) {
    CpuRecipient((start + t) % WRAP % 1000, permillage, ecosystem) == GpuRecipient((start + t) % 1000, permillage, ecosystem)
  }

  lemma {:induction false} SeriesAgree(start: nat, n: nat, permillage: int, ecosystem: bool)
    ensures CpuRecipients(start, n, permillage, ecosystem) == Recipients(start, n, permillage, ecosystem)
            <==> forall t: nat :: t < n ==> AgreesAt(start, t, permillage, ecosystem)
  {
    hide CpuRecipient, GpuRecipient;
    if n > 0 {
      SeriesAgree(start, n - 1, permillage, ecosystem);
      var cpu, gpu := CpuRecipients(start, n, permillage, ecosystem), Recipients(start, n, permillage, ecosystem);
      assert cpu[..n - 1] == CpuRecipients(start, n - 1, permillage, ecosystem);
      assert gpu[..n - 1] == Recipients(start, n - 1, permillage, ecosystem);
      assert cpu[n - 1] == gpu[n - 1] <==> AgreesAt(start, n - 1, permillage, ecosystem);
      assert cpu == cpu[..n - 1] + [cpu[n - 1]] && gpu == gpu[..n - 1] + [gpu[n - 1]];
    }
  }

  /** The slots on both sides of the wrap-around. */
  lemma SlotsAt(x: nat)
    ensures x < WRAP ==> x % WRAP == x
    ensures WRAP <= x < WRAP + 384 ==> x % WRAP == x - WRAP && x % WRAP % 1000 == x - WRAP && x % 1000 == 616 + (x - WRAP)
  {
    if WRAP <= x < WRAP + 384 {
      var j := x - WRAP;
      assert x == 1000 * (WRAP / 1000) + (616 + j);
    }
  }

  lemma FollowsAgrees(start: nat, n: nat, permillage: int, ecosystem: bool, t: nat)
    requires permillage < 0x8000_0000 && Follows(start, n, permillage, ecosystem) && t < n
    ensures AgreesAt(start, t, permillage, ecosystem)
  {
    hide CpuRecipient, GpuRecipient;
    var x := start + t;
    var a, b := x % WRAP % 1000, x % 1000;
    SlotsAt(x);
    CpuIsGpu(a, permillage, ecosystem);
    if x >= WRAP {
      FarApart(a, b, permillage, ecosystem);
    }
  }

  /** The CPU's formula for one slot, up to 1000 permille. */
  lemma CpuIsGpu(slot: nat, permillage: int, ecosystem: bool)
    requires slot < CYCLE && permillage < 0x8000_0000
    ensures permillage <= 1000 ==> CpuRecipient(slot, permillage, ecosystem) == GpuRecipient(slot, permillage, ecosystem)
    ensures permillage > 1000 ==> CpuRecipient(slot, permillage, ecosystem) != GpuRecipient(slot, permillage, ecosystem)
  {
    if permillage > 1000 {
      assert AsUint64(1000 - AsUint64(permillage)) == 1000 - permillage + WRAP;
    } else if permillage > 0 {
      assert AsUint64(1000 - AsUint64(permillage)) == 1000 - permillage;
      assert AsUint64(1000 - AsUint64(permillage / 2)) == 1000 - permillage / 2;
    }
  }

  lemma FarApart(a: nat, b: nat, permillage: int, ecosystem: bool)
    requires a < CYCLE && b < CYCLE && permillage <= 1000
    ensures permillage <= 0 || (permillage == 1000 && !ecosystem) || (a < 1000 - permillage && b < 1000 - permillage)
            ==> GpuRecipient(a, permillage, ecosystem) == GpuRecipient(b, permillage, ecosystem)
    ensures 0 < permillage < 1000 && a < 1000 - permillage <= b
            ==> GpuRecipient(a, permillage, ecosystem) != GpuRecipient(b, permillage, ecosystem)
    ensures permillage == 1000 && ecosystem && a < 500 <= b
            ==> GpuRecipient(a, permillage, ecosystem) != GpuRecipient(b, permillage, ecosystem)
  {
  }

  /** Past the condition there is a batch that differs: the first one where slot 616 + j has reached its fees. */
  lemma FirstDeparture(start: nat, n: nat, permillage: int, ecosystem: bool) returns (t: nat)
    requires start < WRAP && permillage < 0x8000_0000 && !Follows(start, n, permillage, ecosystem)
    ensures t < n && !AgreesAt(start, t, permillage, ecosystem)
  {
    hide CpuRecipient, GpuRecipient;
    if permillage > 1000 {
      t := 0;
      SlotsAt(start);
      CpuIsGpu(start % 1000, permillage, ecosystem);
    } else {
      var j := Slack(permillage);
      t := WRAP + j - start;
      SlotsAt(WRAP + j);
      CpuIsGpu(j, permillage, ecosystem);
      FarApart(j, 616 + j, permillage, ecosystem);
    }
  }

  /** The CPU's batches follow the GPU's schedule exactly when there is no batch, no fee, one recipient for all, or a
      permillage in range and not more than the slack beyond the wrap-around. */
  lemma FollowsIff(start: nat, n: nat, permillage: int, ecosystem: bool)
    requires start < WRAP && permillage < 0x8000_0000
    ensures CpuRecipients(start, n, permillage, ecosystem) == Recipients(start, n, permillage, ecosystem)
            <==> Follows(start, n, permillage, ecosystem)
  {
    hide Follows, AgreesAt;
    SeriesAgree(start, n, permillage, ecosystem);
    if Follows(start, n, permillage, ecosystem) {
      forall t: nat | t < n ensures AgreesAt(start, t, permillage, ecosystem) {
        FollowsAgrees(start, n, permillage, ecosystem, t);
      }
    } else {
      var t := FirstDeparture(start, n, permillage, ecosystem);
    }
  }

  /** How many of the batches take a slot among the last `q` of a cycle. */
  function CpuTally(start: nat, n: nat, q: nat): nat {
    if n == 0 then 0 else CpuTally(start, n - 1, q) + if (start + n - 1) % WRAP % 1000 >= 1000 - q then 1 else 0
  }

  lemma {:induction false} CpuTallySplit(start: nat, n: nat, q: nat)
    requires start < WRAP && start + n <= 2 * WRAP
    ensures CpuTally(start, n, q) ==
            if start + n <= WRAP then Tally(start, n, q) else Tally(start, WRAP - start, q) + Tally(0, start + n - WRAP, q)
  {
    if n > 0 {
      CpuTallySplit(start, n - 1, q);
      var x := start + n - 1;
      assert x % WRAP == if x < WRAP then x else x - WRAP;
    }
  }

  lemma {:induction false} CpuFeesCounted(start: nat, n: nat, permillage: nat, ecosystem: bool)
    requires permillage <= 1000
    ensures var rs := CpuRecipients(start, n, permillage, ecosystem);
            Count(rs, Developer) + Count(rs, Ecosystem) == CpuTally(start, n, permillage)
  {
    hide CpuRecipient, GpuRecipient, Count;
    if n == 0 {
      NothingCounted(start, permillage, ecosystem);
      assert CpuRecipients(start, n, permillage, ecosystem) == Recipients(start, 0, permillage, ecosystem);
    } else {
      CpuFeesCounted(start, n - 1, permillage, ecosystem);
      var slot := (start + n - 1) % WRAP % 1000;
      var last := CpuRecipient(slot, permillage, ecosystem);
      CpuIsGpu(slot, permillage, ecosystem);
      FeeSlots(slot, permillage, ecosystem);
      CountSnoc(CpuRecipients(start, n - 1, permillage, ecosystem), last, Developer);
      CountSnoc(CpuRecipients(start, n - 1, permillage, ecosystem), last, Ecosystem);
    }
  }

  /** Of the 1000 batches that end `over` batches after the wrap-around, exactly `permillage` pay a fee if and only if
      one of these holds; a window that does not reach the wrap-around always pays it. */
  lemma WindowAtWrap(over: nat, permillage: nat, ecosystem: bool)
    requires over <= 1000 && permillage <= 1000
    ensures var rs := CpuRecipients(WRAP - 1000 + over, 1000, permillage, ecosystem);
            Count(rs, Developer) + Count(rs, Ecosystem) == permillage
            <==> over == 0 || over == 1000 || permillage == 0 || permillage == 1000
                 || over + permillage <= 384 || over + permillage >= 1384
  {
    hide CpuRecipients, Count, Tally, CpuTally, Before;
    var start := WRAP - 1000 + over;
    if over == 1000 {
      FromTheWrap(permillage, ecosystem);
    } else {
      CpuFeesCounted(start, 1000, permillage, ecosystem);
      CpuTallySplit(start, 1000, permillage);
      if over == 0 {
        AnyWindow(start, permillage);
      } else {
        TallyClosed(start, 1000 - over, permillage);
        TallyClosed(0, over, permillage);
        BeforeAtWrap(over, permillage);
      }
    }
  }

  /** A window that begins at the wrap-around is a whole cycle. */
  lemma FromTheWrap(permillage: nat, ecosystem: bool)
    requires permillage <= 1000
    ensures var rs := CpuRecipients(WRAP, 1000, permillage, ecosystem);
            Count(rs, Developer) + Count(rs, Ecosystem) == permillage
  {
    hide CpuRecipients, Count, Tally, CpuTally;
    CpuFeesCounted(WRAP, 1000, permillage, ecosystem);
    TallyShift(1000, permillage);
    AnyWindow(0, permillage);
  }

  lemma {:induction false} TallyShift(n: nat, q: nat)
    requires n <= 1000
    ensures CpuTally(WRAP, n, q) == Tally(0, n, q)
  {
    if n > 0 {
      TallyShift(n - 1, q);
      assert (WRAP + n - 1) % WRAP == n - 1;
    }
  }

  lemma BeforeAtWrap(over: nat, q: nat)
    requires 0 < over < 1000 && q <= 1000
    ensures var start := WRAP - 1000 + over;
            var fees := Before(start + (1000 - over), q) - Before(start, q) + (Before(0 + over, q) - Before(0, q));
            fees == q <==> q == 0 || q == 1000 || over + q <= 384 || over + q >= 1384
  {
    var cycles := WRAP / 1000;
    assert WRAP == 1000 * cycles + 616;
    var start := WRAP - 1000 + over;
    assert start + (1000 - over) == WRAP;
    if over < 384 {
      assert start / 1000 == cycles - 1 && start % 1000 == 616 + over;
      assert q * (cycles - 1) == q * cycles - q;
    } else {
      assert start / 1000 == cycles && start % 1000 == over - 384;
    }
    assert over / 1000 == 0 && q * 0 == 0;
  }

  /** At the wrap-around a cycle is cut short: after slot 615 comes slot 0, so 1000 batches can pass without any fee. */
  lemma WrapSkipsFees(k: nat, permillage: nat, ecosystem: bool)
    requires k < 1000 && permillage <= 384
    ensures CpuRecipient((WRAP - 616 + k) % WRAP % 1000, permillage, ecosystem) == User
  {
    if k < 616 {
      assert (WRAP - 616 + k) % WRAP == WRAP - 616 + k;
    } else {
      assert (WRAP - 616 + k) % WRAP == k - 616;
    }
    if permillage > 0 {
      assert AsUint64(1000 - AsUint64(permillage)) == 1000 - permillage;
    }
  }
}
