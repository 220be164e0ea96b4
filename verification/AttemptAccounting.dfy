/** Attempts per submission: the loops of src/CpuMiningWorker.cpp (runWorker) and src/MineUnit.cpp (submitMatches). */
module AttemptAccounting {

  /** What becomes of a match: it is submitted, skipped because its digest does not match, or its hash is rejected
      with an exception. */
  datatype Verdict = Submit | Skip | Reject

  datatype Match = Match(attemptIndex: nat, verdict: Verdict)

  /** One batch: the attempts the backend counted and its matches in the order it lists them. */
  datatype Batch = Batch(attempts: nat, matches: seq<Match>)

  function Sum(xs: seq<nat>): (s: nat) {
    if xs == [] then 0 else Sum(xs[..|xs| - 1]) + xs[|xs| - 1]
  }

  lemma SumSnoc(xs: seq<nat>, x: nat)
    ensures Sum(xs + [x]) == Sum(xs) + x
  {
    assert (xs + [x])[..|xs|] == xs;
  }

  function Max(a: nat, b: nat): nat {
    if a < b then b else a
  }

  /** One past the largest index of the matches. */
  function Reached(matches: seq<Match>): nat {
    if matches == [] then 0 else Max(Reached(matches[..|matches| - 1]), matches[|matches| - 1].attemptIndex + 1)
  }

  lemma ReachedSnoc(matches: seq<Match>, k: nat)
    requires k < |matches|
    ensures Reached(matches[..k + 1]) == Max(Reached(matches[..k]), matches[k].attemptIndex + 1)
  {
    assert matches[..k + 1][..k] == matches[..k];
  }

  /** The attempts a batch is charged with: a match beyond the batch's own count stretches it. */
  function Charged(b: Batch): nat {
    Max(b.attempts, Reached(b.matches))
  }

  predicate InRange(b: Batch) {
    forall m :: m in b.matches ==> m.attemptIndex < b.attempts
  }

  lemma {:induction false} ReachedIff(matches: seq<Match>, n: nat)
    ensures Reached(matches) <= n <==> forall m :: m in matches ==> m.attemptIndex < n
  {
    if matches != [] {
      var front, last := matches[..|matches| - 1], matches[|matches| - 1];
      ReachedIff(front, n);
      assert matches == front + [last];
    }
  }

  /** The charge is the least number that covers the batch's own attempts and every match. */
  lemma ChargedIsLeast(b: Batch, n: nat)
    ensures Charged(b) <= n <==> b.attempts <= n && forall m :: m in b.matches ==> m.attemptIndex + 1 <= n
  {
    ReachedIff(b.matches, n);
  }

  /** A batch is charged exactly its own attempts just when every match index lies below them. */
  lemma ChargedIff(b: Batch)
    ensures Charged(b) >= b.attempts
    ensures Charged(b) == b.attempts <==> InRange(b)
  {
    ReachedIff(b.matches, b.attempts);
  }

  function Rejects(matches: seq<Match>): bool {
    exists m :: m in matches && m.verdict == Reject
  }

  // ----- What is reported -----

  /**
    * The attempts reported with each submission, when `residual` were carried into the batch: together with the
    * reports before it, each covers everything up to its own match. `every` submits all matches, as the GPU unit does.
    */
  function Reports(residual: nat, matches: seq<Match>, every: bool): (r: seq<nat>)
    ensures Sum(r) <= residual + Reached(matches)
  {
    if matches == [] then []
    else
      var front := Reports(residual, matches[..|matches| - 1], every);
      if every || matches[|matches| - 1].verdict == Submit then
        SumSnoc(front, residual + Reached(matches) - Sum(front));
        front + [residual + Reached(matches) - Sum(front)]
      else front
  }

  lemma ReportsSnoc(residual: nat, matches: seq<Match>, k: nat, every: bool)
    requires k < |matches|
    ensures Reached(matches[..k + 1]) == Max(Reached(matches[..k]), matches[k].attemptIndex + 1)
    ensures var front := Reports(residual, matches[..k], every);
            Reports(residual, matches[..k + 1], every) ==
            if every || matches[k].verdict == Submit then front + [residual + Reached(matches[..k + 1]) - Sum(front)] else front
  {
    assert matches[..k + 1][..k] == matches[..k];
    ReachedSnoc(matches, k);
  }

  /** Which matches are submitted. */
  ghost function Submitted(matches: seq<Match>, every: bool): set<int> {
    set i | 0 <= i < |matches| && (every || matches[i].verdict == Submit)
  }

  lemma SubmittedStep(matches: seq<Match>, every: bool)
    ensures matches == [] ==> Submitted(matches, every) == {}
    ensures matches != [] ==>
      var n := |matches| - 1;
      |Submitted(matches, every)| == |Submitted(matches[..n], every)| + if every || matches[n].verdict == Submit then 1 else 0
  {
    if matches != [] {
      var n := |matches| - 1;
      assert Submitted(matches, every)
          == Submitted(matches[..n], every) + if every || matches[n].verdict == Submit then {n} else {};
    }
  }

  /** One report for every match that is submitted, and each closes the account of everything up to its match. */
  lemma {:induction false} ReportsCover(residual: nat, matches: seq<Match>, every: bool)
    ensures |Reports(residual, matches, every)| == |Submitted(matches, every)|
    ensures matches != [] && (every || matches[|matches| - 1].verdict == Submit) ==>
      Sum(Reports(residual, matches, every)) == residual + Reached(matches)
  {
    hide Reached, Sum, Submitted, Reports;
    SubmittedStep(matches, every);
    if matches == [] {
      NothingReported(residual, matches, every);
    } else {
      var k := |matches| - 1;
      var front := Reports(residual, matches[..k], every);
      ReportsCover(residual, matches[..k], every);
      ReportsSnoc(residual, matches, k, every);
      assert matches[..k + 1] == matches;
      SumSnoc(front, residual + Reached(matches) - Sum(front));
    }
  }

  lemma NothingReported(residual: nat, matches: seq<Match>, every: bool)
    requires matches == []
    ensures Reached(matches) == 0 && Reports(residual, matches, every) == [] && Sum([]) == 0
  {
  }

  lemma {:induction false} SumAppend(a: seq<nat>, b: seq<nat>)
    ensures Sum(a + b) == Sum(a) + Sum(b)
  {
    if b == [] {
      assert a + b == a;
    } else {
      SumAppend(a, b[..|b| - 1]);
      SumSnoc(a + b[..|b| - 1], b[|b| - 1]);
      assert a + b == (a + b[..|b| - 1]) + [b[|b| - 1]];
    }
  }

  /** Position of the first match whose hash is rejected; the number of matches when there is none. */
  function FirstReject(matches: seq<Match>): (p: nat)
    ensures p <= |matches| && (p < |matches| <==> Rejects(matches)) && (p < |matches| ==> matches[p].verdict == Reject)
    ensures forall i :: 0 <= i < p ==> matches[i].verdict != Reject
  {
    if matches == [] then 0
    else
      var p := FirstReject(matches[..|matches| - 1]);
      assert matches == matches[..|matches| - 1] + [matches[|matches| - 1]];
      if p < |matches| - 1 then p else if matches[p].verdict == Reject then p else p + 1
  }

  // ----- The CPU worker -----

  class CpuWorker {
    /** All attempts counted so far, the ones not yet reported, and those reported with each submission. */
    var attempts: nat
    var attemptsSinceMatch: nat
    var reported: seq<nat>

    constructor ()
      ensures attempts == 0 && attemptsSinceMatch == 0 && reported == []
    {
      attempts, attemptsSinceMatch, reported := 0, 0, [];
    }

    ghost function Accounted(): nat
      reads this
    {
      Sum(reported) + attemptsSinceMatch
    }

    /** A batch without a rejected hash: every attempt is reported or carried over, in whatever order the matches
        come. */
    method RunBatch(b: Batch) returns (ok: bool)
      modifies this
      ensures ok == !Rejects(b.matches)
      ensures attempts == old(attempts) + b.attempts
      ensures ok ==> reported == old(reported) + Reports(old(attemptsSinceMatch), b.matches, false)
      ensures ok ==> attemptsSinceMatch == old(attemptsSinceMatch) + Charged(b) - Sum(Reports(old(attemptsSinceMatch), b.matches, false))
      ensures !ok ==> var before := b.matches[..FirstReject(b.matches)];
                      reported == old(reported) + Reports(old(attemptsSinceMatch), before, false)
      ensures Accounted() == old(Accounted()) + CpuCharged(b)
    {
      hide Sum, Reached, Reports, FirstReject;
      attempts := attempts + b.attempts;
      var nextAttemptIndex, k := 0, 0;
      ghost var residual, reports := attemptsSinceMatch, [];
      NothingReported(residual, b.matches[..0], false);
      while k < |b.matches|
        invariant 0 <= k <= |b.matches| && attempts == old(attempts) + b.attempts
        invariant nextAttemptIndex == Reached(b.matches[..k]) && reports == Reports(residual, b.matches[..k], false)
        invariant reported == old(reported) + reports
        invariant attemptsSinceMatch == residual + nextAttemptIndex - Sum(reports)
        invariant forall i :: 0 <= i < k ==> b.matches[i].verdict != Reject
      {
        var m := b.matches[k];
        ReportsSnoc(residual, b.matches, k, false);
        if m.attemptIndex >= nextAttemptIndex {
          attemptsSinceMatch := attemptsSinceMatch + m.attemptIndex - nextAttemptIndex + 1;
          nextAttemptIndex := m.attemptIndex + 1;
        }
        k := k + 1;
        if m.verdict == Reject {
          assert FirstReject(b.matches) == k - 1;
          SumAppend(old(reported), reports);
          return false;
        }
        if m.verdict == Skip {
          continue;
        }
        SumSnoc(reports, attemptsSinceMatch);
        reported := reported + [attemptsSinceMatch];
        reports := reports + [attemptsSinceMatch];
        attemptsSinceMatch := 0;
      }
      assert b.matches[..k] == b.matches;
      if b.attempts >= nextAttemptIndex {
        attemptsSinceMatch := attemptsSinceMatch + (b.attempts - nextAttemptIndex);
      }
      SumAppend(old(reported), reports);
      return true;
    }

    /** The mining loop: it ends with the first batch that has a rejected hash. */
    method Run(batches: seq<Batch>) returns (ok: bool)
      requires attempts == 0 && attemptsSinceMatch == 0 && reported == []
      modifies this
      ensures attempts == Attempts(Ran(batches)) && Accounted() == CpuTotal(Ran(batches))
      ensures ok == forall b :: b in batches ==> !Rejects(b.matches)
    {
      hide Rejects, CpuCharged, Ran, Attempts, CpuTotal;
      var k := 0;
      NoneRan(batches);
      while k < |batches|
        invariant 0 <= k <= |batches| && Ran(batches) == batches[..k] + Ran(batches[k..])
        invariant attempts == Attempts(batches[..k]) && Accounted() == CpuTotal(batches[..k])
        invariant forall i :: 0 <= i < k ==> !Rejects(batches[i].matches)
      {
        RanStep(batches, k);
        ok := RunBatch(batches[k]);
        if !ok {
          return;
        }
        k := k + 1;
      }
      AllRan(batches);
      return true;
    }
  }

  // ----- What the CPU worker conserves -----

  /** What a batch adds to the attempts reported or carried. A rejected hash cuts the batch off after its own match. */
  function CpuCharged(b: Batch): nat {
    if Rejects(b.matches) then Reached(b.matches[..FirstReject(b.matches) + 1]) else Charged(b)
  }

  function CpuTotal(batches: seq<Batch>): nat {
    if batches == [] then 0 else CpuTotal(batches[..|batches| - 1]) + CpuCharged(batches[|batches| - 1])
  }

  /** The batches that are run: up to the first with a rejected hash. */
  function Ran(batches: seq<Batch>): seq<Batch> {
    if batches == [] then []
    else if Rejects(batches[0].matches) then [batches[0]]
    else [batches[0]] + Ran(batches[1..])
  }

  lemma NoneRan(batches: seq<Batch>)
    ensures Ran(batches) == batches[..0] + Ran(batches[0..]) && Attempts(batches[..0]) == CpuTotal(batches[..0]) == 0
  {
    assert batches[0..] == batches;
  }

  lemma AllRan(batches: seq<Batch>)
    ensures batches[..|batches|] + Ran(batches[|batches|..]) == batches[..|batches|] == batches
  {
  }

  lemma RanStep(batches: seq<Batch>, k: nat)
    requires k < |batches|
    ensures Rejects(batches[k].matches) ==> batches[..k] + Ran(batches[k..]) == batches[..k + 1]
    ensures !Rejects(batches[k].matches) ==> batches[..k] + Ran(batches[k..]) == batches[..k + 1] + Ran(batches[k + 1..])
    ensures Attempts(batches[..k + 1]) == Attempts(batches[..k]) + batches[k].attempts
    ensures CpuTotal(batches[..k + 1]) == CpuTotal(batches[..k]) + CpuCharged(batches[k])
  {
    hide Rejects, CpuCharged;
    assert batches[..k + 1][..k] == batches[..k] && batches[..k + 1] == batches[..k] + [batches[k]];
    assert batches[k..][1..] == batches[k + 1..];
  }

  lemma {:induction false} OnlyLastRejects(batches: seq<Batch>)
    ensures Ran(batches) <= batches
    ensures forall i :: 0 <= i < |Ran(batches)| - 1 ==> !Rejects(Ran(batches)[i].matches)
    ensures |Ran(batches)| == |batches| || (Ran(batches) != [] && Rejects(Ran(batches)[|Ran(batches)| - 1].matches))
  {
    hide Rejects;
    if batches != [] {
      OnlyLastRejects(batches[1..]);
    }
  }

  /** A batch is accounted for exactly: its matches are in range, or the matches up to a rejected one reach just its end. */
  predicate Exact(b: Batch) {
    if Rejects(b.matches) then Reached(b.matches[..FirstReject(b.matches) + 1]) == b.attempts else InRange(b)
  }

  lemma ExactIff(b: Batch)
    ensures CpuCharged(b) == b.attempts <==> Exact(b)
  {
    hide Rejects, Reached, InRange;
    ChargedIff(b);
  }

  /** After every batch of the worker the reported and carried attempts are those counted if and only if every batch is
      exact; with a rejected hash in-range indices are not enough. */
  lemma {:induction false} CpuConservedIff(batches: seq<Batch>)
    ensures (forall n :: 0 <= n <= |batches| ==> CpuTotal(batches[..n]) == Attempts(batches[..n]))
            <==> forall b :: b in batches ==> Exact(b)
  {
    hide Exact, CpuCharged;
    if batches != [] {
      var front, last := batches[..|batches| - 1], batches[|batches| - 1];
      CpuConservedIff(front);
      ExactIff(last);
      assert batches[..|batches|] == batches == front + [last];
      assert forall n :: 0 <= n <= |front| ==> batches[..n] == front[..n];
      assert front[..|front|] == front;
    } else {
      assert batches[..0] == [];
    }
  }

  lemma {:induction false} NothingRejected(batches: seq<Batch>)
    requires forall b :: b in batches ==> !Rejects(b.matches)
    ensures CpuTotal(batches) == TotalCharged(batches)
  {
    hide Rejects, Charged;
    if batches != [] {
      var front, last := batches[..|batches| - 1], batches[|batches| - 1];
      assert batches == front + [last];
      NothingRejected(front);
    }
  }

  /** The total of a whole run alone: without a rejected hash it is conserved exactly when all indices are in range;
      with one, exactly when the last batch falls short by what the earlier ones were overcharged. */
  lemma CpuTotalIff(batches: seq<Batch>)
    requires batches != []
    ensures var ran := Ran(batches);
            var early, last := ran[..|ran| - 1], ran[|ran| - 1];
            CpuTotal(ran) == Attempts(ran) <==>
              if Rejects(last.matches) then
                TotalCharged(early) + Reached(last.matches[..FirstReject(last.matches) + 1]) == Attempts(early) + last.attempts
              else forall b :: b in ran ==> InRange(b)
  {
    hide Rejects, Reached, FirstReject, Charged, InRange;
    var ran := Ran(batches);
    var early, last := ran[..|ran| - 1], ran[|ran| - 1];
    OnlyLastRejects(batches);
    assert ran == early + [last];
    assert forall b :: b in early ==> !Rejects(b.matches);
    NothingRejected(early);
    if !Rejects(last.matches) {
      ConservedIff(ran);
      NothingRejected(ran);
    }
  }

  lemma OneMatch(b: Batch, m: Match)
    requires b.matches == [m]
    ensures Rejects(b.matches) <==> m.verdict == Reject
    ensures InRange(b) <==> m.attemptIndex < b.attempts
    ensures CpuCharged(b) == if m.verdict == Reject then m.attemptIndex + 1 else Max(b.attempts, m.attemptIndex + 1)
    ensures Attempts([b]) == b.attempts && CpuTotal([b]) == CpuCharged(b)
  {
    assert m in b.matches;
    assert [m][..0] == [] && [m][..1] == [m] && [b][..0] == [];
    ReachedSnoc([m], 0);
  }

  /** In range and yet not conserved: ten attempts are counted, four are accounted for. */
  lemma RejectLosesAttempts()
    ensures var b := Batch(10, [Match(3, Reject)]);
            InRange(b) && !Exact(b) && Ran([b]) == [b] && Attempts([b]) == 10 && CpuTotal([b]) == 4
  {
    hide Rejects, CpuCharged, InRange, Exact;
    var b := Batch(10, [Match(3, Reject)]);
    OneMatch(b, Match(3, Reject));
    ExactIff(b);
  }

  /** The end total can come out right although no batch is exact. */
  lemma LossesCanCancel()
    ensures var b, c := Batch(1, [Match(3, Submit)]), Batch(10, [Match(6, Reject)]);
            !Exact(b) && !Exact(c) && Ran([b, c]) == [b, c] && CpuTotal([b, c]) == Attempts([b, c]) == 11
  {
    hide Rejects, CpuCharged, InRange, Exact;
    var b, c := Batch(1, [Match(3, Submit)]), Batch(10, [Match(6, Reject)]);
    OneMatch(b, Match(3, Submit));
    OneMatch(c, Match(6, Reject));
    ExactIff(b);
    ExactIff(c);
    RanStep([b, c], 1);
    assert [b, c][..2] == [b, c] && [b, c][..1] == [b] && [b, c][1..] == [c];
  }

  function Attempts(batches: seq<Batch>): nat {
    if batches == [] then 0 else Attempts(batches[..|batches| - 1]) + batches[|batches| - 1].attempts
  }

  function TotalCharged(batches: seq<Batch>): nat {
    if batches == [] then 0 else TotalCharged(batches[..|batches| - 1]) + Charged(batches[|batches| - 1])
  }

  /** Over any series of batches the reported attempts and the residual make up the total exactly when every index is
      in range. */
  lemma {:induction false} ConservedIff(batches: seq<Batch>)
    ensures TotalCharged(batches) >= Attempts(batches)
    ensures TotalCharged(batches) == Attempts(batches) <==> forall b :: b in batches ==> InRange(b)
  {
    if batches != [] {
      var front, last := batches[..|batches| - 1], batches[|batches| - 1];
      ConservedIff(front);
      ChargedIff(last);
      assert batches == front + [last];
    }
  }

  // ----- The GPU unit -----

  class GpuUnit {
    var attempts: nat
    var reported: seq<nat>

    constructor ()
      ensures attempts == 0 && reported == []
    {
      attempts, reported := 0, [];
    }

    ghost function Accounted(): nat
      reads this
    {
      Sum(reported) + attempts
    }

    /** Every match is submitted, with the attempts since the one before it. */
    method SubmitMatches(b: Batch)
      modifies this
      ensures reported == old(reported) + Reports(old(attempts), b.matches, true)
      ensures attempts == old(attempts) + Charged(b) - Sum(Reports(old(attempts), b.matches, true))
      ensures Accounted() == old(Accounted()) + Charged(b)
    {
      hide Sum, Reached, Reports;
      var nextAttemptIndex, k := 0, 0;
      ghost var residual, reports := attempts, [];
      NothingReported(residual, b.matches[..0], true);
      while k < |b.matches|
        invariant 0 <= k <= |b.matches|
        invariant nextAttemptIndex == Reached(b.matches[..k]) && reports == Reports(residual, b.matches[..k], true)
        invariant reported == old(reported) + reports
        invariant attempts == residual + nextAttemptIndex - Sum(reports)
      {
        var m := b.matches[k];
        ReportsSnoc(residual, b.matches, k, true);
        if m.attemptIndex >= nextAttemptIndex {
          attempts := attempts + m.attemptIndex - nextAttemptIndex + 1;
          nextAttemptIndex := m.attemptIndex + 1;
        }
        SumSnoc(reports, attempts);
        reported := reported + [attempts];
        reports := reports + [attempts];
        attempts := 0;
        k := k + 1;
      }
      assert b.matches[..k] == b.matches;
      if b.attempts >= nextAttemptIndex {
        attempts := attempts + (b.attempts - nextAttemptIndex);
      }
      SumAppend(old(reported), reports);
    }

    method Run(batches: seq<Batch>)
      requires attempts == 0 && reported == []
      modifies this
      ensures Accounted() == TotalCharged(batches)
      ensures Accounted() == Attempts(batches) <==> forall b :: b in batches ==> InRange(b)
    {
      hide Charged, InRange;
      ConservedIff(batches);
      for k := 0 to |batches|
        invariant Accounted() == TotalCharged(batches[..k])
      {
        assert batches[..k + 1][..k] == batches[..k];
        SubmitMatches(batches[k]);
      }
      assert batches[..|batches|] == batches;
    }
  }
}
