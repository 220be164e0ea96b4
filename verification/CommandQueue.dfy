/** The bounded command intake of PlatformManager.cpp: one producer, one consumer, any interleaving. */
module CommandQueue {

  const CAPACITY: nat := 256
  const MAX_PAYLOAD: nat := 64 * 1024

  datatype Command = Command(topic: string, payload: string)

  /** What happens to the queue, in whatever order the threads get the lock. `Halt` and `Launch` are stop and start. */
  datatype Event = Enqueue(command: Command) | Dispatch | Halt | Launch

  /** The queue and, beside it, what an observer saw: commands offered while running, those let in, those handed out. */
  datatype Intake = Intake(running: bool, queue: seq<Command>, dropped: nat,
                           received: seq<Command>, accepted: seq<Command>, dispatched: seq<Command>)

  predicate Fits(i: Intake, c: Command) {
    |c.payload| <= MAX_PAYLOAD && |i.queue| < CAPACITY
  }

  function Step(i: Intake, e: Event): Intake {
    match e
    case Enqueue(c) =>
      if !i.running then i
      else if !Fits(i, c) then i.(dropped := i.dropped + 1, received := i.received + [c])
      else i.(queue := i.queue + [c], received := i.received + [c], accepted := i.accepted + [c])
    case Dispatch =>
      if !i.running || i.queue == [] then i
      else i.(queue := i.queue[1..], dispatched := i.dispatched + [i.queue[0]])
    case Halt => i.(running := false)
    case Launch => i.(running := true)
  }

  function Run(events: seq<Event>): Intake {
    if events == [] then Intake(false, [], 0, [], [], [])
    else Step(Run(events[..|events| - 1]), events[|events| - 1])
  }

  /** While running, a command of at most 65536 characters that finds fewer than 256 queued joins the end of the queue;
      any other is counted as dropped and changes nothing else. */
  lemma Admission(i: Intake, c: Command)
    requires i.running
    ensures var n := Step(i, Enqueue(c));
            && n.queue == (if |c.payload| <= 65536 && |i.queue| < 256 then i.queue + [c] else i.queue)
            && n.dropped == (if |c.payload| <= 65536 && |i.queue| < 256 then i.dropped else i.dropped + 1)
            && n.running && n.dispatched == i.dispatched && n.received == i.received + [c]
  {
  }

  /** Launching and halting change nothing but whether the intake runs; at first it does not, and until it does nothing
      is taken in or handed out. While it runs the oldest command is handed out. */
  lemma Running(i: Intake, c: Command)
    ensures !Run([]).running && Run([]).queue == []
    ensures Step(i, Launch) == Intake(true, i.queue, i.dropped, i.received, i.accepted, i.dispatched)
    ensures Step(i, Halt) == Intake(false, i.queue, i.dropped, i.received, i.accepted, i.dispatched)
    ensures !i.running ==> Step(i, Enqueue(c)) == i && Step(i, Dispatch) == i
    ensures i.running && i.queue != [] ==>
      var n := Step(i, Dispatch);
      [n.dispatched[|n.dispatched| - 1]] + n.queue == i.queue && n.dispatched[..|n.dispatched| - 1] == i.dispatched
  {
    if i.running && i.queue != [] {
      assert [i.queue[0]] + i.queue[1..] == i.queue;
    }
  }

  /** `a` is `b` with some commands left out. */
  ghost predicate Subsequence(a: seq<Command>, b: seq<Command>)
  {
    if a == [] then true
    else b != [] && ((a[|a| - 1] == b[|b| - 1] && Subsequence(a[..|a| - 1], b[..|b| - 1])) || Subsequence(a, b[..|b| - 1]))
  }

  ghost predicate Orderly(i: Intake) {
    && i.dispatched + i.queue == i.accepted
    && Subsequence(i.accepted, i.received)
    && |i.accepted| + i.dropped == |i.received|
    && |i.queue| <= CAPACITY
    && forall k :: 0 <= k < |i.queue| ==> |i.queue[k].payload| <= MAX_PAYLOAD
  }

  lemma StepOrderly(i: Intake, e: Event)
    requires Orderly(i)
    ensures Orderly(Step(i, e))
  {
    hide Subsequence;
    match e
    case Enqueue(c) =>
      if i.running {
        OfferedNext(i.accepted, i.received, c);
        assert i.dispatched + (i.queue + [c]) == i.accepted + [c];
      }
    case Dispatch =>
      if i.running && i.queue != [] {
        assert i.dispatched + [i.queue[0]] + i.queue[1..] == i.dispatched + i.queue;
      }
    case _ =>
  }

  lemma OfferedNext(a: seq<Command>, b: seq<Command>, c: Command)
    requires Subsequence(a, b)
    ensures Subsequence(a, b + [c]) && Subsequence(a + [c], b + [c])
  {
    assert (b + [c])[..|b|] == b && (a + [c])[..|a|] == a;
  }

  /** Under every interleaving: what was dispatched followed by what is queued is what was accepted, in arrival order;
      every command offered while running was accepted or counted as dropped; the queue stays within its capacity. */
  lemma {:induction false} RunOrderly(events: seq<Event>)
    ensures Orderly(Run(events))
  {
    if events != [] {
      RunOrderly(events[..|events| - 1]);
      StepOrderly(Run(events[..|events| - 1]), events[|events| - 1]);
    }
  }

  /** A flood cannot displace what was accepted: whatever is offered, the head of the queue stays until it is
      dispatched. */
  lemma {:induction false} HeadStays(i: Intake, offers: seq<Command>)
    requires i.queue != []
    ensures i.queue <= Offered(i, offers).queue && Offered(i, offers).dispatched == i.dispatched
  {
    if offers != [] {
      HeadStays(i, offers[..|offers| - 1]);
    }
  }

  function Offered(i: Intake, offers: seq<Command>): Intake {
    if offers == [] then i else Step(Offered(i, offers[..|offers| - 1]), Enqueue(offers[|offers| - 1]))
  }

  /** The members of PlatformManager behind queue_mutex_. */
  class Queue {
    var running: bool
    var queue: seq<Command>
    var dropped: nat
    ghost var received: seq<Command>
    ghost var accepted: seq<Command>
    ghost var dispatched: seq<Command>

    ghost function View(): Intake
      reads this
    {
      Intake(running, queue, dropped, received, accepted, dispatched)
    }

    constructor ()
      ensures View() == Run([])
    {
      running, queue, dropped := false, [], 0;
      received, accepted, dispatched := [], [], [];
    }

    method EnqueueCommand(c: Command)
      requires Orderly(View())
      modifies this
      ensures View() == Step(old(View()), Enqueue(c)) && Orderly(View())
    {
      StepOrderly(View(), Enqueue(c));
      var oversized := |c.payload| > MAX_PAYLOAD;
      if !running {
        return;
      }
      received := received + [c];
      if oversized || |queue| >= CAPACITY {
        dropped := dropped + 1;
        return;
      }
      queue := queue + [c];
      accepted := accepted + [c];
    }

    /** One turn of the dispatch loop; None when it has nothing to hand out. */
    method DispatchOne() returns (taken: seq<Command>)
      requires Orderly(View())
      modifies this
      ensures View() == Step(old(View()), Dispatch) && Orderly(View())
      ensures dispatched == old(dispatched) + taken
      ensures taken == if old(running) && old(queue) != [] then [old(queue)[0]] else []
    {
      StepOrderly(View(), Dispatch);
      if !running || queue == [] {
        return [];
      }
      taken := [queue[0]];
      queue := queue[1..];
      dispatched := dispatched + taken;
    }
  }
}
