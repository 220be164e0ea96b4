/** The miner's side of a lease: platform state, lease and mining context (PlatformManager.cpp, LeaseManager.cpp,
    MiningCoordinator.cpp). */
module PlatformManager {

  import opened Common

  datatype PlatformState = Idle | Available | Leased | Mining | Completed | ErrorState

  datatype MiningMode = SelfMining | PlatformMining

  datatype MiningContext = MiningContext(mode: MiningMode, address: string, prefix: string, consumerId: string, leaseId: string)

  /** `start` is a reading of the steady clock in nanoseconds. */
  datatype LeaseInfo = LeaseInfo(leaseId: string, consumerId: string, consumerAddress: string, prefix: string,
                                 duration: int, start: nat, blocksFound: nat)

  /** What goes out over MQTT. */
  datatype Message = Registration | Status(state: PlatformState, leaseId: string) | Offline | Block(leaseId: string, key: string)

  /** What a handler reads from its surroundings: steady clock, broker connection, the user's own address. */
  datatype Env = Env(now: nat, connected: bool, userAddress: string)

  datatype Miner = Miner(state: PlatformState, running: bool, lease: Option<LeaseInfo>, context: MiningContext,
                         sent: seq<Message>)

  // ----- Lease time -----

  const NANOS: nat := 1_000_000_000

  function Elapsed(l: LeaseInfo, now: nat): nat {
    if now < l.start then 0 else (now - l.start) / NANOS
  }

  /** isExpiredInternal for a lease that is held; a duration of zero or less never expires. */
  predicate LeaseExpired(l: LeaseInfo, now: nat) {
    l.duration > 0 && Elapsed(l, now) >= l.duration
  }

  /** static_cast<int>: the low 32 bits as a two's-complement number. */
  function ToInt32(n: nat): int {
    var low := n % 0x1_0000_0000;
    if low < 0x8000_0000 then low else low - 0x1_0000_0000
  }

  function Remaining(l: LeaseInfo, now: nat): int {
    var left := l.duration - ToInt32(Elapsed(l, now));
    if left > 0 then left else 0
  }

  /** When the 32-bit remainder tells the truth. A lease with a duration: before its expiry, and after it as long as
      the low 32 bits of the elapsed seconds, read as a signed number, are not below the duration. A lease without one
      never expires, but time only seems to remain in those elapsed seconds whose low bits read as a negative number
      below its duration. */
  predicate CountsDown(l: LeaseInfo, now: nat) {
    var seconds := Elapsed(l, now);
    var low := seconds % 0x1_0000_0000;
    if l.duration > 0 then seconds < l.duration || l.duration <= low < 0x8000_0000
    else low >= 0x8000_0000 && low - 0x1_0000_0000 < l.duration
  }

  /** For every duration and every clock reading: time remains as long as the lease is active exactly in those cases. */
  lemma RemainingIffActive(l: LeaseInfo, now: nat)
    requires l.duration < 0x8000_0000
    ensures (Remaining(l, now) > 0 <==> !LeaseExpired(l, now)) <==> CountsDown(l, now)
    ensures l.duration > 0 && !LeaseExpired(l, now) ==> Remaining(l, now) == l.duration - Elapsed(l, now)
  {
  }

  /** The elapsed seconds at which the original's 32-bit subtraction overflows: their low 32 bits lie between 2^31 and
      2^31 plus the duration, or, for a negative duration, between that sum and 2^31. */
  lemma OverflowIff(l: LeaseInfo, now: nat)
    requires -0x8000_0000 <= l.duration < 0x8000_0000
    ensures var low := Elapsed(l, now) % 0x1_0000_0000;
            -0x8000_0000 <= l.duration - ToInt32(Elapsed(l, now)) < 0x8000_0000
            <==> !(0x8000_0000 <= low <= l.duration + 0x8000_0000) && !(l.duration + 0x8000_0000 < low < 0x8000_0000)
  {
  }

  /** The first 68 years of a lease with a duration are such a case. */
  lemma FirstYears(l: LeaseInfo, now: nat)
    requires l.duration > 0 && Elapsed(l, now) < 0x8000_0000
    ensures CountsDown(l, now)
  {
  }

  /** In nanoseconds: a lease of `duration` seconds expires at the first reading that is as many seconds later, and a
      lease of no or negative duration never does. */
  lemma ExpiredAt(l: LeaseInfo, now: nat)
    ensures LeaseExpired(l, now) <==> l.duration > 0 && now >= l.start + 1_000_000_000 * l.duration
  {
    if l.duration > 0 && now >= l.start {
      assert (now - l.start) / NANOS >= l.duration <==> now - l.start >= NANOS * l.duration;
    }
  }

  /** A lease that expired stays expired. */
  lemma ExpiryIsFinal(l: LeaseInfo, now: nat, later: nat)
    requires LeaseExpired(l, now) && now <= later
    ensures LeaseExpired(l, later)
  {
    assert (later - l.start) / NANOS >= (now - l.start) / NANOS;
  }

  // ----- Handlers as functions -----

  function OwnContext(env: Env): MiningContext {
    MiningContext(SelfMining, env.userAddress, "", "", "")
  }

  function ContextOf(l: LeaseInfo): MiningContext {
    MiningContext(PlatformMining, l.consumerAddress, l.prefix, l.consumerId, l.leaseId)
  }

  function LeaseIdOf(m: Miner): string {
    if m.lease.Some? then m.lease.value.leaseId else ""
  }

  function To(m: Miner, state: PlatformState, env: Env): Miner {
    if m.state == state then m
    else m.(state := state, sent := m.sent + if env.connected then [Status(state, LeaseIdOf(m))] else [])
  }

  function LeaseDropped(m: Miner, env: Env): Miner {
    m.(lease := None, context := OwnContext(env))
  }

  /** The lease is completed, dropped, and the miner offers itself again. */
  function Finished(m: Miner, env: Env): Miner {
    To(LeaseDropped(To(m, Completed, env), env), Available, env)
  }

  /** hasActiveLease guards the clean-up, so a lease that has already expired is left in place. */
  function WithoutActiveLease(m: Miner, env: Env): Miner {
    if m.lease.Some? && !LeaseExpired(m.lease.value, env.now) then LeaseDropped(m, env) else m
  }

  function Parked(m: Miner, env: Env): Miner {
    To(WithoutActiveLease(m, env), Idle, env)
  }

  predicate IsHexChar(c: char) {
    '0' <= c <= '9' || 'a' <= c <= 'f' || 'A' <= c <= 'F'
  }

  predicate IsHexString(s: string, low: nat, high: nat) {
    low <= |s| <= high && forall i :: 0 <= i < |s| ==> IsHexChar(s[i])
  }

  predicate IsSafeChar(c: char) {
    '0' <= c <= '9' || 'a' <= c <= 'z' || 'A' <= c <= 'Z' || c == '.' || c == '_' || c == '-'
  }

  predicate IsSafeIdentifier(s: string, low: nat, high: nat) {
    low <= |s| <= high
    && forall i :: 0 <= i < |s| ==> IsSafeChar(s[i])
  }

  /** `addressValid` is the verdict of the EIP-55 check. */
  datatype Task = Task(leaseId: string, consumerId: string, address: string, addressValid: bool, prefix: string, duration: int)

  predicate TaskValid(t: Task) {
    && IsSafeIdentifier(t.leaseId, 1, 64) && IsSafeIdentifier(t.consumerId, 1, 64)
    && t.addressValid
    && (t.prefix == "" || IsHexString(t.prefix, 16, 16))
    && 60 <= t.duration <= 7 * 24 * 3600
  }

  function LeaseFor(t: Task, now: nat): LeaseInfo {
    LeaseInfo(t.leaseId, t.consumerId, t.address, t.prefix, t.duration, now, 0)
  }

  function Acked(m: Miner, accepted: bool, env: Env): Miner {
    To(m, if accepted then Available else ErrorState, env)
  }

  function Assigned(m: Miner, t: Task, env: Env): Miner {
    if m.state != Available || !TaskValid(t) then m
    else
      var leased := To(m, Leased, env);
      if m.lease.Some? then To(leased, ErrorState, env)
      else To(leased.(lease := Some(LeaseFor(t, env.now)), context := ContextOf(LeaseFor(t, env.now))), Mining, env)
  }

  predicate ReleaseMatches(m: Miner, leaseId: string) {
    m.lease.Some? && (leaseId == "" || (IsSafeIdentifier(leaseId, 1, 64) && m.lease.value.leaseId == leaseId))
  }

  function Released(m: Miner, leaseId: string, env: Env): Miner {
    if ReleaseMatches(m, leaseId) then Finished(m, env) else m
  }

  function Resumed(m: Miner, env: Env): Miner {
    if m.state == Idle then To(m.(sent := m.sent + [Registration]), Available, env) else m
  }

  /** The lease is dropped as by a pause; the miner reports itself offline and disconnects, so that the last change of
      state is no longer reported. */
  function StoppedMiner(m: Miner, env: Env): Miner {
    if !m.running then m
    else
      var freed := WithoutActiveLease(m.(running := false), env);
      To(freed.(sent := freed.sent + [Offline]), Idle, env.(connected := false))
  }

  function Started(m: Miner, connects: bool, env: Env): Miner {
    if m.running then m
    else if !connects then To(m, ErrorState, env)
    else To(m.(running := true, sent := m.sent + [Registration]), Available, env)
  }

  function Watched(m: Miner, env: Env): Miner {
    var ended := if m.state == Mining && (m.lease.None? || LeaseExpired(m.lease.value, env.now)) then Finished(m, env) else m;
    if ended.state != ErrorState then ended
    else
      var idle := To(ended, Idle, env);
      if env.connected then To(idle.(sent := idle.sent + [Registration]), Available, env) else idle
  }

  function BlockSeen(m: Miner, key: string): Miner {
    match m.state
    case Mining =>
      if m.lease.None? then m
      else m.(lease := Some(m.lease.value.(blocksFound := m.lease.value.blocksFound + 1)),
              sent := m.sent + [Block(m.lease.value.leaseId, key)])
    case Available => m.(sent := m.sent + [Block("", key)])
    case _ => m
  }

  // ----- Runs -----

  datatype Event =
    | Start(connects: bool) | Stop | RegisterAck(accepted: bool) | AssignTask(task: Task) | Release(leaseId: string)
    | Pause | Resume | Shutdown | Watchdog | BlockFound(key: string)

  /** Commands and the watchdog only run while the manager does. */
  predicate Delivered(m: Miner, e: Event) {
    m.running || e.Start? || e.Stop? || e.BlockFound?
  }

  function Step(m: Miner, e: Event, env: Env): Miner {
    if !Delivered(m, e) then m
    else
      match e
      case Start(connects) => Started(m, connects, env)
      case Stop | Shutdown => StoppedMiner(m, env)
      case RegisterAck(accepted) => Acked(m, accepted, env)
      case AssignTask(task) => Assigned(m, task, env)
      case Release(leaseId) => Released(m, leaseId, env)
      case Pause => Parked(m, env)
      case Resume => Resumed(m, env)
      case Watchdog => Watched(m, env)
      case BlockFound(key) => BlockSeen(m, key)
  }

  function Initial(): Miner {
    Miner(Idle, false, None, MiningContext(SelfMining, "", "", "", ""), [])
  }

  function Run(events: seq<(Event, Env)>): Miner {
    if events == [] then Initial()
    else
      var (e, env) := events[|events| - 1];
      Step(Run(events[..|events| - 1]), e, env)
  }

  // ----- What holds between handlers -----

  /** The context mines for the lease that is held, to its consumer's address and under its id; and for the user, with
      nothing of any lease left in it, when none is. */
  predicate Mirrors(context: MiningContext, lease: Option<LeaseInfo>) {
    match lease
    case Some(l) =>
      && context.mode == PlatformMining && context.address == l.consumerAddress && context.prefix == l.prefix
      && context.consumerId == l.consumerId && context.leaseId == l.leaseId
    case None => context.mode == SelfMining && context.prefix == "" && context.consumerId == "" && context.leaseId == ""
  }

  ghost predicate Steady(m: Miner) {
    && Mirrors(m.context, m.lease)
    && (m.state == Mining ==> m.lease.Some?)
    && m.state != Leased && m.state != Completed
    && (!m.running ==> m.state == Idle || m.state == ErrorState)
    && (m.lease.Some? ==> 60 <= m.lease.value.duration <= 7 * 24 * 3600)
  }

  lemma StepSteady(m: Miner, e: Event, env: Env)
    requires Steady(m)
    ensures Steady(Step(m, e, env))
  {
    hide LeaseExpired, IsSafeIdentifier, IsHexString;
  }

  /** In every reachable state the context mirrors the lease and MINING implies a lease. */
  lemma {:induction false} RunSteady(events: seq<(Event, Env)>)
    ensures Steady(Run(events))
  {
    hide Step, Steady;
    if events == [] {
      InitialSteady();
    } else {
      RunSteady(events[..|events| - 1]);
      StepSteady(Run(events[..|events| - 1]), events[|events| - 1].0, events[|events| - 1].1);
    }
  }

  lemma InitialSteady()
    ensures Steady(Initial())
  {
  }

  const DIGITS := "0123456789"
  const LOWER := "abcdefghijklmnopqrstuvwxyz"
  const UPPER := "ABCDEFGHIJKLMNOPQRSTUVWXYZ"

  lemma LetterAt(k: nat)
    requires k < 26
    ensures LOWER[k] == (97 + k) as char && UPPER[k] == (65 + k) as char
    ensures k < 10 ==> DIGITS[k] == (48 + k) as char
  {
  }

  /** Which characters the two alphabets hold. */
  lemma Alphabets(c: char)
    ensures IsHexChar(c) <==> c in DIGITS || c in LOWER[..6] || c in UPPER[..6]
    ensures IsSafeChar(c) <==> c in DIGITS || c in LOWER || c in UPPER || c == '.' || c == '_' || c == '-'
  {
    hide DIGITS, LOWER, UPPER;
    Lengths();
    forall k: nat | k < 26
      ensures LOWER[k] == (97 + k) as char && UPPER[k] == (65 + k) as char && (k < 10 ==> DIGITS[k] == (48 + k) as char)
    {
      LetterAt(k);
    }
    var v := c as int;
    assert '0' <= c <= '9' ==> DIGITS[v - 48] == c;
    assert 'a' <= c <= 'z' ==> LOWER[v - 97] == c;
    assert 'A' <= c <= 'Z' ==> UPPER[v - 65] == c;
    assert 'a' <= c <= 'f' ==> LOWER[..6][v - 97] == c;
    assert 'A' <= c <= 'F' ==> UPPER[..6][v - 65] == c;
  }

  lemma Lengths()
    ensures |DIGITS| == 10 && |LOWER| == 26 && |UPPER| == 26
  {
  }

  /** The tasks the miner takes: ids of 1 to 64 safe characters, a valid address, no prefix or one of 16 hexadecimal
      digits, and between a minute and a week. */
  predicate Acceptable(t: Task) {
    && 1 <= |t.leaseId| <= 64 && (forall i :: 0 <= i < |t.leaseId| ==> IsSafeChar(t.leaseId[i]))
    && 1 <= |t.consumerId| <= 64 && (forall i :: 0 <= i < |t.consumerId| ==> IsSafeChar(t.consumerId[i]))
    && t.addressValid && 60 <= t.duration <= 604_800
    && (t.prefix == "" || (|t.prefix| == 16 && forall i :: 0 <= i < 16 ==> IsHexChar(t.prefix[i])))
  }

  /** A task is refused without effect unless the miner is available and the task acceptable. Taken, it starts a lease
      with the task's own id, consumer, address, prefix and duration, beginning now with no blocks, mines for it and
      reports both changes of state; a lease still held makes it fail instead, and that lease stays. */
  lemma TaskTaken(m: Miner, t: Task, env: Env)
    ensures var n := Assigned(m, t, env);
            && (m.state != Available || !Acceptable(t) ==> n == m)
            && (m.state == Available && Acceptable(t) && m.lease.None? ==>
                  && n.lease == Some(LeaseInfo(t.leaseId, t.consumerId, t.address, t.prefix, t.duration, env.now, 0))
                  && n.context == MiningContext(PlatformMining, t.address, t.prefix, t.consumerId, t.leaseId)
                  && n.state == Mining && n.running == m.running
                  && n.sent == m.sent + if env.connected then [Status(Leased, ""), Status(Mining, t.leaseId)] else [])
            && (m.state == Available && Acceptable(t) && m.lease.Some? ==>
                  && n.lease == m.lease && n.context == m.context && n.state == ErrorState && n.running == m.running
                  && n.sent == m.sent + if env.connected then [Status(Leased, m.lease.value.leaseId), Status(ErrorState, m.lease.value.leaseId)]
                                        else [])
  {
    assert m.sent + [] == m.sent;
  }

  /** How a lease ends, by a matching release or by the watchdog: COMPLETED is reported under the lease's id, the miner
      works for the user again and offers itself. */
  lemma LeaseEnds(m: Miner, leaseId: string, env: Env)
    requires m.lease.Some? && (m.state == Mining || m.state == Available)
    ensures var done := Miner(Available, m.running, None, MiningContext(SelfMining, env.userAddress, "", "", ""),
                              m.sent + if env.connected then [Status(Completed, m.lease.value.leaseId), Status(Available, "")] else []);
            && Released(m, leaseId, env) == (if leaseId == "" || (IsSafeIdentifier(leaseId, 1, 64) && leaseId == m.lease.value.leaseId)
                                             then done else m)
            && Watched(m, env) == if m.state == Mining && LeaseExpired(m.lease.value, env.now) then done else m
  {
    hide LeaseExpired, IsSafeIdentifier;
    assert m.sent + [] == m.sent;
  }

  /** A pause drops an unexpired lease and goes idle, a resume offers the miner again from there and from nowhere else,
      and an acknowledgement sets the state it says. */
  lemma OtherCommands(m: Miner, env: Env)
    ensures var n := Parked(m, env);
            && n.state == Idle && n.running == m.running
            && (m.lease.Some? && !LeaseExpired(m.lease.value, env.now) ==>
                  n.lease == None && n.context == MiningContext(SelfMining, env.userAddress, "", "", ""))
            && (m.lease.None? || LeaseExpired(m.lease.value, env.now) ==> n.lease == m.lease && n.context == m.context)
    ensures Resumed(m, env) == if m.state != Idle then m
                               else m.(state := Available, sent := m.sent + ([Registration] + if env.connected then [Status(Available, LeaseIdOf(m))] else []))
    ensures Acked(m, true, env).state == Available && Acked(m, false, env).state == ErrorState
    ensures forall ok :: var n := Acked(m, ok, env); n.lease == m.lease && n.context == m.context && n.running == m.running
  {
    hide LeaseExpired;
    assert m.sent + [] == m.sent;
  }

  /** A block found during a lease is counted and reported under the lease's id, one found while available is reported
      under none, and in every other state it is not reported at all. */
  lemma BlockReports(m: Miner, key: string)
    ensures BlockSeen(m, key) ==
            if m.state == Mining && m.lease.Some? then
              var l := m.lease.value;
              m.(lease := Some(LeaseInfo(l.leaseId, l.consumerId, l.consumerAddress, l.prefix, l.duration, l.start, l.blocksFound + 1)),
                 sent := m.sent + [Block(l.leaseId, key)])
            else if m.state == Available then m.(sent := m.sent + [Block("", key)]) else m
  {
  }

  /** Starting connects and registers or fails into the error state, from which the watchdog registers again as soon as
      there is a connection; stopping is idle, offline and without an unexpired lease. */
  lemma StartAndStop(m: Miner, connects: bool, env: Env)
    ensures m.running ==> Started(m, connects, env) == m
    ensures !m.running ==>
      var n := Started(m, connects, env);
      && n.running == connects && n.state == (if connects then Available else ErrorState)
      && n.lease == m.lease && n.context == m.context
      && (connects ==> m.sent + [Registration] <= n.sent)
    ensures m.state == ErrorState ==>
      var n := Watched(m, env);
      && n.state == (if env.connected then Available else Idle) && n.lease == m.lease && n.context == m.context
      && n.sent == m.sent + if env.connected then [Status(Idle, LeaseIdOf(m)), Registration, Status(Available, LeaseIdOf(m))] else []
    ensures !m.running ==> StoppedMiner(m, env) == m
    ensures m.running ==>
      var n := StoppedMiner(m, env);
      && !n.running && n.state == Idle && n.sent == m.sent + [Offline]
      && (n.lease.None? <==> m.lease.None? || !LeaseExpired(m.lease.value, env.now))
      && (m.lease.Some? && n.lease.None? ==> n.context == MiningContext(SelfMining, env.userAddress, "", "", ""))
      && (m.lease.None? || n.lease.Some? ==> n.lease == m.lease && n.context == m.context)
  {
    hide LeaseExpired;
    assert m.sent + [] == m.sent;
  }

  /** MINING exactly when a lease is held: what one would expect, and what does not always hold. */
  predicate Coherent(m: Miner) {
    m.state == Mining <==> m.lease.Some?
  }

  /** The events after which a lease is held outside MINING: any registration acknowledgement during a lease, and a
      pause, stop or shutdown that finds the lease already expired. */
  predicate StrandsLease(m: Miner, e: Event, env: Env) {
    m.lease.Some? && (e.RegisterAck? || ((e.Pause? || e.Stop? || e.Shutdown?) && LeaseExpired(m.lease.value, env.now)))
  }

  /** From a coherent state, coherence is lost in exactly those events. */
  lemma CoherentIff(m: Miner, e: Event, env: Env)
    requires Steady(m) && Coherent(m)
    ensures Coherent(Step(m, e, env)) <==> !StrandsLease(m, e, env)
  {
    hide LeaseExpired, IsSafeIdentifier, IsHexString;
  }

  /** Once stranded, only a release that matches the lease, or a pause, stop or shutdown before its expiry, gives it
      up: neither the watchdog nor a new task does. */
  lemma StrandedLeaseStays(m: Miner, e: Event, env: Env)
    requires Steady(m) && m.lease.Some? && m.state != Mining && m.running
    ensures Step(m, e, env).lease.None?
       <==> (e.Release? && ReleaseMatches(m, e.leaseId))
            || ((e.Pause? || e.Stop? || e.Shutdown?) && !LeaseExpired(m.lease.value, env.now))
    ensures Step(m, e, env).lease.Some? ==> Step(m, e, env).lease == m.lease && Step(m, e, env).state != Mining
  {
    hide LeaseExpired, IsSafeIdentifier, IsHexString;
  }

  ghost predicate CoherentThroughout(events: seq<(Event, Env)>) {
    forall n :: 0 <= n <= |events| ==> Coherent(Run(events[..n]))
  }

  ghost predicate StrandsAt(events: seq<(Event, Env)>, i: nat)
    requires i < |events|
  {
    StrandsLease(Run(events[..i]), events[i].0, events[i].1)
  }

  lemma ThroughoutStep(events: seq<(Event, Env)>)
    requires events != []
    ensures var earlier := events[..|events| - 1];
            && (CoherentThroughout(events) <==> CoherentThroughout(earlier) && Coherent(Run(events)))
            && (CoherentThroughout(earlier) ==> Coherent(Run(earlier)))
  {
    hide Coherent, Run;
    var k, earlier := |events| - 1, events[..|events| - 1];
    assert events[..k + 1] == events && earlier[..k] == earlier;
    assert forall n :: 0 <= n <= k ==> earlier[..n] == events[..n];
  }

  lemma StrandsStep(events: seq<(Event, Env)>)
    requires events != []
    ensures var k, earlier := |events| - 1, events[..|events| - 1];
            (forall i :: 0 <= i < |events| ==> !StrandsAt(events, i))
            <==> (forall i :: 0 <= i < |earlier| ==> !StrandsAt(earlier, i)) && !StrandsAt(events, k)
  {
    hide StrandsLease, Run;
    var k, earlier := |events| - 1, events[..|events| - 1];
    forall i | 0 <= i < k ensures StrandsAt(events, i) == StrandsAt(earlier, i) {
      assert earlier[..i] == events[..i];
    }
  }

  /** Over a whole run: "MINING exactly when a lease is held" is true after every event if and only if no event
      strands a lease. */
  lemma {:induction false} RunCoherentIff(events: seq<(Event, Env)>)
    ensures CoherentThroughout(events) <==> forall i :: 0 <= i < |events| ==> !StrandsAt(events, i)
  {
    hide Step, Steady, Coherent, StrandsLease, CoherentThroughout, StrandsAt;
    if events == [] {
      StartCoherent();
    } else {
      var k, earlier := |events| - 1, events[..|events| - 1];
      RunCoherentIff(earlier);
      ThroughoutStep(events);
      StrandsStep(events);
      if CoherentThroughout(earlier) {
        RunSteady(earlier);
        CoherentIff(Run(earlier), events[k].0, events[k].1);
        LastStrands(events);
      }
    }
  }

  lemma LastStrands(events: seq<(Event, Env)>)
    requires events != []
    ensures var k := |events| - 1;
            StrandsAt(events, k) == StrandsLease(Run(events[..k]), events[k].0, events[k].1)
            && Run(events) == Step(Run(events[..k]), events[k].0, events[k].1)
  {
    hide Step, StrandsLease;
  }

  lemma StartCoherent()
    ensures CoherentThroughout([])
  {
    var none: seq<(Event, Env)> := [];
    assert forall n :: 0 <= n <= |none| ==> none[..n] == none;
  }

  function SomeTask(): Task {
    Task("lease-1", "consumer-1", "0x00", true, "", 60)
  }

  /** A reachable state that is available and still holds a lease: start, take a task, get acknowledged again. */
  lemma LeaseCanBeStranded()
    ensures var env := Env(0, true, "0x01");
            var m := Run([(Start(true), env), (AssignTask(SomeTask()), env), (RegisterAck(true), env)]);
            m.state == Available && m.lease.Some? && m.context.mode == PlatformMining
  {
    var env := Env(0, true, "0x01");
    var e1, e2, e3 := (Start(true), env), (AssignTask(SomeTask()), env), (RegisterAck(true), env);
    assert [e1, e2, e3][..2] == [e1, e2] && [e1, e2][..1] == [e1];
    assert Run([]) == Initial() && [e1] == [] + [e1];
    var started := Run([e1]);
    assert started == Step(Initial(), e1.0, env);
    var mining := Run([e1, e2]);
    assert mining == Step(started, e2.0, env);
    assert mining.state == Mining;
    assert Run([e1, e2, e3]) == Step(mining, e3.0, env);
  }

  // ----- Block accounting -----

  /** Block messages under a lease id. */
  function LeasedBlocks(sent: seq<Message>): nat {
    if sent == [] then 0
    else
      var last := sent[|sent| - 1];
      LeasedBlocks(sent[..|sent| - 1]) + if last.Block? && last.leaseId != "" then 1 else 0
  }

  lemma {:induction false} LeasedBlocksAppend(a: seq<Message>, b: seq<Message>)
    ensures LeasedBlocks(a + b) == LeasedBlocks(a) + LeasedBlocks(b)
  {
    if b == [] {
      assert a + b == a;
    } else {
      assert (a + b)[..|a + b| - 1] == a + b[..|b| - 1];
      LeasedBlocksAppend(a, b[..|b| - 1]);
    }
  }

  /** Messages other than block reports do not count. */
  lemma {:induction false} NoBlocks(sent: seq<Message>)
    requires forall i :: 0 <= i < |sent| ==> !sent[i].Block?
    ensures LeasedBlocks(sent) == 0
  {
    if sent != [] {
      NoBlocks(sent[..|sent| - 1]);
    }
  }

  /** Messages were added at the end and none is a block report. */
  ghost predicate Quiet(before: seq<Message>, after: seq<Message>) {
    before <= after && forall i :: |before| <= i < |after| ==> !after[i].Block?
  }

  lemma QuietThrough(a: seq<Message>, b: seq<Message>, c: seq<Message>)
    requires Quiet(a, b) && Quiet(b, c)
    ensures Quiet(a, c)
  {
  }

  lemma ToQuiet(m: Miner, state: PlatformState, env: Env)
    ensures Quiet(m.sent, m.sent) && Quiet(m.sent, m.sent + [Registration])
    ensures Quiet(m.sent, To(m, state, env).sent)
    ensures Quiet(m.sent, To(m.(sent := m.sent + [Registration]), state, env).sent)
  {
  }

  lemma FinishedQuiet(m: Miner, env: Env)
    ensures Quiet(m.sent, Finished(m, env).sent)
  {
    hide Quiet, To;
    var n := LeaseDropped(To(m, Completed, env), env);
    ToQuiet(m, Completed, env);
    ToQuiet(n, Available, env);
    QuietThrough(m.sent, n.sent, Finished(m, env).sent);
  }

  lemma StoppedQuiet(m: Miner, env: Env)
    ensures Quiet(m.sent, StoppedMiner(m, env).sent)
  {
  }

  lemma AssignedQuiet(m: Miner, t: Task, env: Env)
    ensures Quiet(m.sent, Assigned(m, t, env).sent)
  {
    hide Quiet, To, TaskValid;
    var leased := To(m, Leased, env);
    var held := leased.(lease := Some(LeaseFor(t, env.now)), context := ContextOf(LeaseFor(t, env.now)));
    ToQuiet(m, Leased, env);
    ToQuiet(leased, ErrorState, env);
    ToQuiet(held, Mining, env);
    QuietThrough(m.sent, leased.sent, To(leased, ErrorState, env).sent);
    QuietThrough(m.sent, leased.sent, To(held, Mining, env).sent);
  }

  lemma WatchedQuiet(m: Miner, env: Env)
    ensures Quiet(m.sent, Watched(m, env).sent)
  {
    hide Quiet, To, Finished, LeaseExpired;
    FinishedQuiet(m, env);
    ToQuiet(m, Idle, env);
    var ended := if m.state == Mining && (m.lease.None? || LeaseExpired(m.lease.value, env.now)) then Finished(m, env) else m;
    var idle := To(ended, Idle, env);
    ToQuiet(ended, Idle, env);
    ToQuiet(idle, Available, env);
    QuietThrough(m.sent, ended.sent, idle.sent);
    QuietThrough(m.sent, idle.sent, To(idle.(sent := idle.sent + [Registration]), Available, env).sent);
  }

  /** Only the block handler reports blocks. */
  lemma OtherMessages(m: Miner, e: Event, env: Env)
    requires !e.BlockFound?
    ensures Quiet(m.sent, Step(m, e, env).sent)
  {
    hide Quiet, To, Finished, Assigned, Watched, LeaseExpired;
    ToQuiet(m, Available, env);
    ToQuiet(m, ErrorState, env);
    ToQuiet(m, Idle, env);
    ToQuiet(m.(running := true), Available, env);
    ToQuiet(LeaseDropped(m, env), Idle, env);
    if m.running && (e.Stop? || e.Shutdown?) {
      StoppedQuiet(m, env);
    }
    FinishedQuiet(m, env);
    WatchedQuiet(m, env);
    if e.AssignTask? {
      AssignedQuiet(m, e.task, env);
    }
  }

  lemma BlockReported(m: Miner, key: string, env: Env)
    requires m.lease.Some? ==> m.lease.value.leaseId != ""
    requires Steady(m)
    ensures var n := Step(m, BlockFound(key), env);
            && m.sent <= n.sent
            && (m.lease.None? ==> n.lease == m.lease && LeasedBlocks(n.sent) == LeasedBlocks(m.sent))
            && (m.lease.Some? ==>
                  n.lease.Some? && n.lease.value == m.lease.value.(blocksFound := n.lease.value.blocksFound)
                  && n.lease.value.blocksFound - m.lease.value.blocksFound == LeasedBlocks(n.sent) - LeasedBlocks(m.sent))
  {
    var n := Step(m, BlockFound(key), env);
    if n.sent != m.sent {
      assert n.sent[..|n.sent| - 1] == m.sent;
    }
  }

  /** Other events keep the lease, drop it, or start one with no blocks. */
  lemma OtherLeases(m: Miner, e: Event, env: Env)
    requires Steady(m) && !e.BlockFound?
    ensures var n := Step(m, e, env);
            n.lease == m.lease || n.lease.None?
            || (m.lease.None? && n.lease.value.blocksFound == 0 && n.lease.value.leaseId != "")
  {
    hide LeaseExpired, IsHexString;
  }

  /** A step adds messages at the end; a block is credited to the lease held exactly when it is reported under a
      lease id, and a new lease starts with no blocks. */
  lemma BlockCredited(m: Miner, e: Event, env: Env)
    requires Steady(m) && (m.lease.Some? ==> m.lease.value.leaseId != "")
    ensures var n := Step(m, e, env);
            && m.sent <= n.sent
            && (n.lease.Some? ==> n.lease.value.leaseId != "")
            && (n.lease.Some? && m.lease.Some? ==>
                  n.lease.value == m.lease.value.(blocksFound := n.lease.value.blocksFound)
                  && n.lease.value.blocksFound - m.lease.value.blocksFound == LeasedBlocks(n.sent) - LeasedBlocks(m.sent))
            && (m.lease.None? ==> LeasedBlocks(n.sent) == LeasedBlocks(m.sent))
            && (n.lease.Some? && m.lease.None? ==> n.lease.value.blocksFound == 0)
  {
    hide Step, Steady;
    var n := Step(m, e, env);
    if e.BlockFound? {
      BlockReported(m, e.key, env);
    } else {
      OtherMessages(m, e, env);
      OtherLeases(m, e, env);
      var more := n.sent[|m.sent|..];
      assert n.sent == m.sent + more;
      NoBlocks(more);
      LeasedBlocksAppend(m.sent, more);
    }
  }

  /** Over every run, the blocks credited to the lease that is held are the block reports under a lease id since it
      began: `since` is the number of events before it was taken. */
  lemma {:induction false} CreditedSince(events: seq<(Event, Env)>, since: nat)
    requires since <= |events| && Run(events[..since]).lease.None?
    requires forall i :: since < i <= |events| ==> Run(events[..i]).lease.Some?
    ensures var m := Run(events);
            && (m.lease.Some? ==> m.lease.value.leaseId != "")
            && LeasedBlocks(m.sent) - LeasedBlocks(Run(events[..since]).sent)
               == if m.lease.Some? then m.lease.value.blocksFound else 0
  {
    hide Step, Steady;
    if since == |events| {
      assert events[..since] == events;
    } else {
      var earlier := events[..|events| - 1];
      forall i | 0 <= i <= |earlier| ensures earlier[..i] == events[..i] {
      }
      CreditedSince(earlier, since);
      RunSteady(earlier);
      assert events[..|events|] == events && earlier[..|earlier|] == earlier;
      BlockCredited(Run(earlier), events[|events| - 1].0, events[|events| - 1].1);
    }
  }

  // ----- The objects -----

  class LeaseManager {
    var current: Option<LeaseInfo>

    constructor ()
      ensures current == None
    {
      current := None;
    }

    /** Refused while any lease is held, expired or not. */
    method StartLease(lease: LeaseInfo) returns (ok: bool)
      modifies this
      ensures ok == old(current).None?
      ensures current == if ok then Some(lease) else old(current)
    {
      if current.Some? {
        return false;
      }
      current := Some(lease);
      return true;
    }

    method EndLease() returns (ok: bool)
      modifies this
      ensures ok == old(current).Some? && current == None
    {
      if current.None? {
        return false;
      }
      current := None;
      return true;
    }

    predicate IsExpired(now: nat)
      reads this
    {
      current.None? || LeaseExpired(current.value, now)
    }

    predicate HasActiveLease(now: nat)
      reads this
    {
      current.Some? && !IsExpired(now)
    }

    /** Seconds left: positive exactly while a lease is active, in the cases `CountsDown` names. */
    method RemainingSeconds(now: nat) returns (seconds: int)
      requires current.Some? ==> current.value.duration < 0x8000_0000
      ensures seconds >= 0 && (current.None? ==> seconds == 0)
      ensures current.Some? ==> ((seconds > 0 <==> HasActiveLease(now)) <==> CountsDown(current.value, now))
      ensures HasActiveLease(now) && current.value.duration > 0 ==> seconds == current.value.duration - Elapsed(current.value, now)
    {
      if current.None? {
        return 0;
      }
      RemainingIffActive(current.value, now);
      var remaining := current.value.duration - ToInt32(Elapsed(current.value, now));
      return if remaining > 0 then remaining else 0;
    }

    method RecordBlock()
      modifies this
      ensures current == if old(current).None? then None
                         else Some(old(current).value.(blocksFound := old(current).value.blocksFound + 1))
    {
      if current.Some? {
        current := Some(current.value.(blocksFound := current.value.blocksFound + 1));
      }
    }

    function ToMiningContext(env: Env): (context: MiningContext)
      reads this
      ensures Mirrors(context, current)
    {
      if current.None? then OwnContext(env) else ContextOf(current.value)
    }
  }

  class MiningCoordinator {
    var context: MiningContext

    constructor ()
      ensures context == Initial().context
    {
      context := MiningContext(SelfMining, "", "", "", "");
    }

    method UpdateContext(context: MiningContext)
      modifies this
      ensures this.context == context
    {
      this.context := context;
    }
  }

  class PlatformManager {
    var state: PlatformState
    var running: bool
    var sent: seq<Message>
    const leases: LeaseManager
    const coordinator: MiningCoordinator

    constructor ()
      ensures View() == Initial() && fresh(leases) && fresh(coordinator)
    {
      state, running, sent := Idle, false, [];
      leases := new LeaseManager();
      coordinator := new MiningCoordinator();
    }

    function View(): Miner
      reads this, leases, coordinator
    {
      Miner(state, running, leases.current, coordinator.context, sent)
    }

    method TransitionTo(next: PlatformState, env: Env)
      modifies this
      ensures View() == To(old(View()), next, env)
    {
      var before := state;
      state := next;
      if before == next {
        return;
      }
      if env.connected {
        sent := sent + [Status(next, if leases.current.Some? then leases.current.value.leaseId else "")];
      }
    }

    method SendRegistration()
      modifies this
      ensures View() == old(View()).(sent := old(sent) + [Registration])
    {
      sent := sent + [Registration];
    }

    method SwitchToSelfMining(env: Env)
      modifies coordinator
      ensures View() == old(View()).(context := OwnContext(env))
    {
      coordinator.UpdateContext(OwnContext(env));
    }

    method DropLease(env: Env)
      modifies leases, coordinator
      ensures View() == LeaseDropped(old(View()), env)
    {
      var ended := leases.EndLease();
      SwitchToSelfMining(env);
    }

    method Start(connects: bool, env: Env) returns (ok: bool)
      modifies this
      ensures View() == Started(old(View()), connects, env)
    {
      if running {
        return true;
      }
      if !connects {
        TransitionTo(ErrorState, env);
        return false;
      }
      running := true;
      SendRegistration();
      TransitionTo(Available, env);
      return true;
    }

    method Stop(env: Env)
      modifies this, leases, coordinator
      ensures View() == StoppedMiner(old(View()), env)
    {
      if !running {
        return;
      }
      running := false;
      if leases.HasActiveLease(env.now) {
        DropLease(env);
      }
      sent := sent + [Offline];
      TransitionTo(Idle, env.(connected := false));
    }

    method HandleRegisterAck(accepted: bool, env: Env)
      modifies this
      ensures View() == Acked(old(View()), accepted, env)
    {
      if accepted {
        if state != Available {
          TransitionTo(Available, env);
        }
      } else {
        TransitionTo(ErrorState, env);
      }
    }

    method HandleAssignTask(t: Task, env: Env)
      modifies this, leases, coordinator
      ensures View() == Assigned(old(View()), t, env)
    {
      hide IsSafeIdentifier, IsHexString;
      if state != Available {
        return;
      }
      if !IsSafeIdentifier(t.leaseId, 1, 64) || !IsSafeIdentifier(t.consumerId, 1, 64) {
        return;
      }
      if !t.addressValid {
        return;
      }
      if t.prefix != "" && !IsHexString(t.prefix, 16, 16) {
        return;
      }
      if t.duration < 60 || t.duration > 7 * 24 * 3600 {
        return;
      }
      TransitionTo(Leased, env);
      var started := leases.StartLease(LeaseFor(t, env.now));
      if !started {
        TransitionTo(ErrorState, env);
        return;
      }
      coordinator.UpdateContext(leases.ToMiningContext(env));
      TransitionTo(Mining, env);
    }

    /** COMPLETED, drop the lease, AVAILABLE: the tail shared by release and expiry. */
    method Finish(env: Env)
      modifies this, leases, coordinator
      ensures View() == Finished(old(View()), env)
    {
      TransitionTo(Completed, env);
      DropLease(env);
      TransitionTo(Available, env);
    }

    method HandleRelease(leaseId: string, env: Env)
      modifies this, leases, coordinator
      ensures View() == Released(old(View()), leaseId, env)
    {
      hide IsSafeIdentifier;
      if leaseId != "" && !IsSafeIdentifier(leaseId, 1, 64) {
        return;
      }
      if leases.current.None? {
        return;
      }
      if leaseId != "" && leases.current.value.leaseId != leaseId {
        return;
      }
      Finish(env);
    }

    method HandlePause(env: Env)
      modifies this, leases, coordinator
      ensures View() == Parked(old(View()), env)
    {
      if leases.HasActiveLease(env.now) {
        DropLease(env);
      }
      TransitionTo(Idle, env);
    }

    method HandleResume(env: Env)
      modifies this
      ensures View() == Resumed(old(View()), env)
    {
      if state == Idle {
        SendRegistration();
        TransitionTo(Available, env);
      }
    }

    /** One round of the lease watchdog. */
    method WatchdogRound(env: Env)
      modifies this, leases, coordinator
      ensures View() == Watched(old(View()), env)
    {
      if state == Mining && leases.IsExpired(env.now) {
        Finish(env);
      }
      if state == ErrorState {
        TransitionTo(Idle, env);
        if env.connected {
          SendRegistration();
          TransitionTo(Available, env);
        }
      }
    }

    method OnBlockFound(key: string)
      modifies this, leases
      ensures View() == BlockSeen(old(View()), key)
    {
      if state == Mining {
        var lease := leases.current;
        if lease.None? {
          return;
        }
        leases.RecordBlock();
        sent := sent + [Block(lease.value.leaseId, key)];
      } else if state == Available {
        sent := sent + [Block("", key)];
      }
    }

    /** Any event, dispatched as the source does; every reachable object state satisfies `Steady`. */
    method Handle(e: Event, env: Env)
      requires Steady(View())
      modifies this, leases, coordinator
      ensures View() == Step(old(View()), e, env) && Steady(View())
    {
      hide Steady, Assigned, Released, Parked, Watched, Started, Acked, Resumed, BlockSeen, Finished, To;
      StepSteady(View(), e, env);
      if !Delivered(View(), e) {
        return;
      }
      match e
      case Start(connects) => var ok := Start(connects, env);
      case Stop => Stop(env);
      case RegisterAck(accepted) => HandleRegisterAck(accepted, env);
      case AssignTask(task) => HandleAssignTask(task, env);
      case Release(leaseId) => HandleRelease(leaseId, env);
      case Pause => HandlePause(env);
      case Resume => HandleResume(env);
      case Shutdown => Stop(env);
      case Watchdog => WatchdogRound(env);
      case BlockFound(key) => OnBlockFound(key);
    }
  }
}
