# treeminer: a verified model

treeminer mines Argon2id hashes on GPUs and CPUs and rents its hash power on a small marketplace. This project models
the parts of it in which a mistake would cost the most, and proves what they promise.

**Host prehash** (`Words`, `Rfc7693`, `Blake2b`, `Rfc9106`, `Argon2Params`, and the worked examples `Rfc7693Example` and
`Rfc9106Example`). The buffered BLAKE2b object with its lazy
block compression, carry counter and in-place mixing is proved against RFC 7693, including the compression function on
64-bit words; the main result is that the digest does not depend on how the input is cut into updates. On it rest the
variable-length hash, both prehash paths, both first-block fillers and the final fold of Argon2, proved against RFC 9106. Two examples printed in
the standards are derived step by step from the reference definitions.

**Marketplace** (`Ledger`, `Database`, `Accounts`, `Matcher`, `SettlementEngine`, `ChainSimulator`, `Watcher`,
`Marketplace`). Repositories and handlers are methods over one set of tables, each proved equal to a function of the
tables. `Marketplace` runs these functions in any order and proves, for every state any run reaches, that money is
conserved and explained by the audit log, that no worker has two active leases, that a lease ends once and is charged
once, for what it lasted, and that counters agree with the rows they count. Money is `real`; time is a clock that never runs backwards.

**Miner state machine** (`PlatformManager`, `CommandQueue`). Platform state, lease and mining context under every
sequence of commands, watchdog rounds, starts and stops; and the bounded command queue under every interleaving.

**MQTT** (`MqttCodec`, `MqttTopics`, `MqttStream`, `MqttBroker`, `MqttClient`, `MqttDelivery`). Broker and simulator
client are separate implementations of one protocol. Each reading loop works on a connection that hands out its bytes
in fragments of any size; the end-to-end theorems go from the calls of one client to the callbacks of another.

**Smaller pieces** (`MerkleTree`, `ConfigManager`, `Base64`, `Phc`, `AttemptAccounting`, `DevFee`).

Where an expected property does not hold, the model follows the code and the exact condition is proved:

- a transfer to an account that does not exist debits the sender and is never credited (`Marketplace.StrandedIff`,
  `Marketplace.MoneyConserved`, `Marketplace.MoneyCanBeStranded`);
- a registration acknowledgement during a lease, or a pause on an expired lease, leaves a lease held outside MINING
  (`PlatformManager.CoherentIff`, `PlatformManager.RunCoherentIff`). treeminer/tests/unit/test_state_machine.py does not
  list MINING to AVAILABLE as a legal transition, but the acknowledgement handler makes it;
- a SUBACK for more than 125 filters carries an ill-formed length, and the client that asked for it can miss messages
  (`MqttDelivery.RunBytesIff`, `MqttDelivery.LongSubscriptionLoses`);
- a worker's own counter of blocks mined without a lease misses those reported before it registers
  (`Marketplace.SelfCountedIff`);
- a Merkle root does not bind the number of elements: it is shared by lists that differ in repeated last nodes, and by
  every level above a list; `MerkleTree.SameRootIff` says exactly when, and `MerkleTree.DistinctLeavesBind` when not;
- a saved configuration loads back only when its entries are clean (`ConfigManager.RoundTripIff`);
- match indices beyond a batch inflate the attempts, and a rejected hash, which ends the CPU worker, loses some
  (`AttemptAccounting.GpuUnit.Run`, `AttemptAccounting.CpuConservedIff`). A batch there is an arbitrary result of a hash
  backend; the shipped backends number the matches within the batch;
- at the 64-bit wrap of the shared counter the CPU fee schedule departs from the GPU's (`DevFee.FollowsIff`,
  `DevFee.WindowAtWrap`). That the two formulas differ above 1000 permille has no effect, since such values are refused
  at the start (treeminer/src/main.cpp:593-596);
- the 32-bit remainder of lease time wraps after 68 years, and is zero from the start for a lease without a duration,
  which never expires (`PlatformManager.RemainingIffActive`). The task handler refuses such a lease.

## Model

| member | source | states |
|---|---|---|
| Blake2b.TableRepeats | treeminer/src/blake2b.cpp:12-25 | the twelve-row permutation table selects, in every round, the row of section 2.7 of RFC 7693 (rounds 10 and 11 use rows 0 and 1 again) |
| Blake2b.ParameterState | treeminer/src/blake2b.cpp:95-98 | or-ing length and fixed bits into the first word gives the initial state of section 2.5 of RFC 7693 |
| Blake2b.Blake2b.Init | treeminer/src/blake2b.cpp:90-99 | after init the object stands for the empty message and the digest length asked for |
| Blake2b.CarryAdd | treeminer/src/blake2b.cpp:165-169 | the wrap test on the low word carries: the two words together grow by exactly the increment, modulo 2^128 |
| Blake2b.Blake2b.IncrementCounter | treeminer/src/blake2b.cpp:165-169 | the counter as one 128-bit number grows by the increment |
| Blake2b.Blake2b.Mix | treeminer/src/blake2b.cpp:29-39 | the in-place macro changes exactly its four lanes, to what G of section 3.1 of RFC 7693 gives |
| Blake2b.Blake2b.MixRounds | treeminer/src/blake2b.cpp:41-51 | twelve in-place rounds equal the 96 calls of G that section 3.2 of RFC 7693 lists, for any word arithmetic |
| Blake2b.Blake2b.StartVector | treeminer/src/blake2b.cpp:125-140 | the local vector is chain value, IV, offset words and finalisation flag in the order of section 3.2 |
| Rfc7693.WorkVectorWords | treeminer/src/blake2b.cpp:125-140 | each word of the vector, with its constants written out: the last block, and no other, has word 14 inverted |
| Rfc7693.FlagsInvert | treeminer/src/blake2b.cpp:202 | all ones invert every bit of the word they are xored into, for the last block alone |
| Blake2b.Blake2b.Compress | treeminer/src/blake2b.cpp:101-163 | the state becomes F of RFC 7693 of the old state, the block, the byte counter and the final flag |
| Blake2b.CounterWords | treeminer/src/blake2b.cpp:137-138 | the two counter words are the offset the reference function splits |
| Blake2b.WrappedOffset | treeminer/src/blake2b.cpp:165-169 | a counter that wrapped at 2^128 compresses like the true offset |
| Blake2b.Blake2b.Drain | treeminer/src/blake2b.cpp:175-193 | more than a block pending: buffered block first, then whole blocks from the input, always leaving 1 to 128 bytes |
| Blake2b.Blake2b.Update | treeminer/src/blake2b.cpp:171-196 | feeding bytes makes the state stand for the old bytes followed by the new ones; at most 128 are buffered and counter plus buffer is the total, carry included |
| Blake2b.Blake2b.LastBlock | treeminer/src/blake2b.cpp:198-202 | counting and zero-padding the tail finishes the fold of section 3.3 of RFC 7693 |
| Blake2b.Blake2b.StorePrefix | treeminer/src/blake2b.cpp:204-215 | both output branches write exactly the first n bytes of the little-endian state and nothing else |
| Blake2b.Blake2b.Final | treeminer/src/blake2b.cpp:198-216 | the bytes written are the digest of everything absorbed |
| Blake2b.HashChunks | treeminer/src/blake2b.cpp:171-216 | for every message and every way of cutting it, init, updates and final give the one-shot digest of RFC 7693 |
| Rfc7693.AbsorbPrefix | treeminer/src/blake2b.cpp:175-193 | blocks already folded do not depend on bytes that come later, for any compression function |
| Rfc7693.OneOrTwoBlocks | treeminer/src/blake2b.cpp:171-202 | the fold written out for up to 256 bytes: block, byte count and flag of every call |
| Rfc7693Example.DigestOfAbc | treeminer/src/blake2b.cpp:90-216 | the digest of "abc" is the one worked out in appendix A of RFC 7693, so constants, permutations, rotations and byte order are those of the standard |
| Words.LoadStore | treeminer/src/blake2b.cpp:53-88 | loading a stored word gives the word back |
| Words.StoreLoad | treeminer/src/blake2b.cpp:53-88 | storing a loaded word gives the bytes back |
| Argon2Params.Store32 | treeminer/src/argon2params.cpp:10-17 | exactly four bytes are written, the number modulo 2^32, least significant first |
| Words.LE32Digits | treeminer/src/argon2params.cpp:10-17 | the four bytes are the digits to the base 256, least significant first |
| Argon2Params.HexRoundTrip | treeminer/src/argon2params.cpp:90-98 | bytes written as hexadecimal are decoded to the same bytes |
| Argon2Params.HexOfAnyCase | treeminer/src/argon2params.cpp:90-98 | every even number of hexadecimal digits in any mixture of cases is decoded, each byte from its own two digits |
| Argon2Params.PrefixBecomesZero | treeminer/src/argon2params.cpp:90-98 | a text still carrying "0x" is decoded too, with a zero byte in front |
| Argon2Params.OddTexts | treeminer/src/argon2params.cpp:94 | signs, spaces, single digits and trailing letters, as std::stoi takes them |
| Argon2Params.WriteChain | treeminer/src/argon2params.cpp:70-86 | the loop emits r = ceil(T/32) - 2 half digests and a last one of 33 to 64 bytes: H' of section 3.3 of RFC 9106 |
| Argon2Params.DigestLong | treeminer/src/argon2params.cpp:49-88 | for every length exactly that many bytes are written, and they are H' of the input |
| Rfc9106.HPrimePieces | treeminer/src/argon2params.cpp:49-88 | which digest each piece of the output comes from, for every length |
| Argon2Params.BuildHeader | treeminer/src/argon2params.cpp:108-116 | seven appended words are the seven 32-bit fields that open the prehash input |
| Argon2Params.BatchedInput | treeminer/src/argon2params.cpp:107-134 | the pieces the batched path feeds, joined, are the input of H0 in section 3.2 of RFC 9106 |
| Argon2Params.FieldInput | treeminer/src/argon2params.cpp:136-157 | the pieces the field-by-field path feeds, joined, are the same input |
| Argon2Params.InitialHashBatched | treeminer/src/argon2params.cpp:107-134 | the fast path writes H0, or nothing when the salt cannot be decoded |
| Argon2Params.InitialHashByField | treeminer/src/argon2params.cpp:136-157 | the general path writes the same H0 for every parameter set, with or without secret and associated data |
| Argon2Params.InitialHash | treeminer/src/argon2params.cpp:100-157 | whichever path is taken the 64 bytes are H0 |
| Rfc9106.PrehashFields | treeminer/src/argon2params.cpp:107-157 | where each parameter lies in the input of H0 |
| Rfc9106Example.PrehashDigest | treeminer/src/argon2params.cpp:100-157 | for the inputs of section 5.3 of RFC 9106, secret and associated data included, H0 is the pre-hashing digest printed there |
| Argon2Params.FillColumn | treeminer/src/argon2params.cpp:167-172 | one lane loop writes a whole column of first blocks; clock readings only grow the timings |
| Argon2Params.FillFirstBlocks | treeminer/src/argon2params.cpp:159-180 | the memory becomes the two columns of first blocks and is otherwise unchanged |
| Argon2Params.FillFirstBlocksTimed | treeminer/src/argon2params.cpp:182-225 | the overload with timings leaves the same memory, with and without a place for them |
| Argon2Params.FilledAt | treeminer/src/argon2params.cpp:165-179 | for every lane count, offset (c*lanes+l)*1024 holds H'(H0, c, l), and nothing past 2*lanes*1024 changes |
| Argon2Params.XorBlock | treeminer/src/argon2params.cpp:243-245 | xor of 128 words is xor of the 1024 bytes |
| Rfc9106.XorOfBlocksAt | treeminer/src/argon2params.cpp:234-245 | byte by byte, what the fold over the lanes is |
| Argon2Params.FinalizeLanes | treeminer/src/argon2params.cpp:234-248 | the fold over lanes is H' of the bytewise xor of the lanes' blocks |
| Argon2Params.Finalize | treeminer/src/argon2params.cpp:227-249 | the single-lane shortcut and the fold compute one function of the memory |
| Argon2Params.MemoryBlocks | treeminer/src/argon2params.cpp:45-46 | the segment arithmetic gives the block count of section 3.2 of RFC 9106, at least two columns |
| Ledger.TotalWithout | treeminer/server/storage/accounts.py:166-179 | the sum of balances does not depend on the order of the rows |
| Ledger.ChargeClamps | treeminer/server/settlement.py:64-71 | one amount is charged: what is due if the balance covers it, else the balance, else nothing; for a due that is not negative it lies between nothing and both |
| Ledger.SettledStatements | treeminer/server/settlement.py:50-103 | a settlement commits exactly when all three accounts exist, and then it is three updates followed by three inserts in the written order, of the clamped charge and its 95 and 5 hundredths |
| Ledger.SettleKeeps | treeminer/server/settlement.py:43-96 | settling keeps the total and the audit trail, also when consumer, provider and treasury coincide |
| Ledger.SettledBalances | treeminer/server/settlement.py:64-85 | each balance moves by its part of the one clamped charge, all of it, 95 and 5 hundredths, whichever parties coincide |
| Ledger.SettleOverdrawsNobody | treeminer/server/settlement.py:64-71 | the clamp keeps every balance non-negative |
| Ledger.TransferKeeps | treeminer/server/storage/accounts.py:141-164 | transfers are audited; the total is unchanged if and only if the transfer does not end in an integrity error |
| Ledger.CashKeeps | treeminer/server/storage/accounts.py:115-139 | deposits and withdrawals are audited and move the total by what they report |
| Ledger.CashMoves | treeminer/server/storage/accounts.py:115-139 | each outcome of a deposit or withdrawal, exactly when it occurs and what it changes |
| Ledger.TransferMoves | treeminer/server/storage/accounts.py:141-164 | each outcome of a transfer, every balance after it and the rows it leaves, also to oneself |
| Ledger.CreatedKeeps | treeminer/server/storage/accounts.py:16-30 | creating an account that exists changes nothing; a new one adds its opening balance |
| Ledger.NothingOverdrawn | treeminer/server/storage/accounts.py:115-164 | no cash operation makes a balance negative |
| Accounts.AccountRepo.Transfer | treeminer/server/storage/accounts.py:141-164 | both updates before both inserts, with the error outcomes, equal to the transfer function; no other table changes |
| Accounts.AccountRepo.Deposit | treeminer/server/storage/accounts.py:115-125 | outcome and tables equal the deposit function |
| Accounts.AccountRepo.Withdraw | treeminer/server/storage/accounts.py:127-139 | outcome and tables equal the withdrawal function |
| Matcher.RentKeepsConstraints | treeminer/server/matcher.py:139-178 | renting looks at the leases, so a worker that calls itself AVAILABLE mid-lease is not rented twice |
| Matcher.StopKeepsConstraints | treeminer/server/matcher.py:198-203 | stopping keeps the unique index and the foreign keys |
| Matcher.ExpireKeepsConstraints | treeminer/server/matcher.py:215-219 | so does expiry |
| Matcher.MatchingEngine.RegisterWorker | treeminer/server/matcher.py:54-76 | registration, with its provider account |
| Matcher.MatchingEngine.UpdateHeartbeat | treeminer/server/matcher.py:78-93 | a heartbeat samples exactly the worker's active lease |
| Matcher.MatchingEngine.FindTarget | treeminer/server/matcher.py:140-155 | the search returns the named worker or the first rentable one in scan order |
| Matcher.PickIsFirstFree | treeminer/server/matcher.py:139-155 | a named worker is taken exactly when it is free, otherwise the first free one of the scan, and none exactly when none is free |
| Matcher.RentedRows | treeminer/server/matcher.py:157-178 | each outcome of a rental; the new lease has the request's own terms at a sixtieth of the worker's price per minute |
| Matcher.StoppedRows | treeminer/server/matcher.py:196-211 | exactly one lease ends, at the present moment, exactly its worker is freed, and all else stays |
| Matcher.ExpiredRows | treeminer/server/matcher.py:213-229 | a round ends exactly the active leases older than their duration |
| Matcher.WorkerRows | treeminer/server/matcher.py:54-93 | what registration, heartbeat and pricing change in the rows of a worker and its lease |
| Matcher.MatchingEngine.RentHashpower | treeminer/server/matcher.py:131-194 | tables and outcome of a rental, keeping the constraints |
| Matcher.MatchingEngine.StopLease | treeminer/server/matcher.py:196-211 | only an active lease is ended, with its end time, and its worker freed |
| Matcher.PricingEngine.SetPricing | treeminer/server/pricing.py:48-74 | the price changes exactly when the worker exists and price and durations are acceptable; each refusal changes nothing |
| Matcher.MatchingEngine.FindExpired | treeminer/server/storage/leases.py:105-116 | exactly the active leases past their end, each once |
| Matcher.MatchingEngine.CheckExpiredLeases | treeminer/server/matcher.py:213-229 | the loop, in any row order, ends all expired leases at once and frees exactly their workers |
| SettlementEngine.Engine.Execute | treeminer/server/settlement.py:50-103 | three updates and three inserts or a full rollback, equal to the settlement function |
| SettlementEngine.Engine.SettleLease | treeminer/server/settlement.py:37-119 | charge, record, and the outcome for a second record of one lease |
| SettlementEngine.Server.HandleStop | treeminer/server/routers/rental.py:65-68 | stop and settle the re-read lease |
| SettlementEngine.Server.Watchdog | treeminer/server/server.py:212-221 | one round: end what expired, settle in order until an exception |
| ChainSimulator.SubmitKeeps | treeminer/server/chain_simulator.py:164-219 | keys stay distinct and are exactly the known ones, ids stay 1..n, every balance stays the reward sum of its lower-cased account; a known key is refused |
| ChainSimulator.DifficultyRises | treeminer/server/chain_simulator.py:279-285 | difficulty never falls and stays in its bounds |
| ChainSimulator.SubmittedRows | treeminer/server/chain_simulator.py:164-219 | exactly which submissions are taken, and the block, reward and difficulty they leave |
| ChainSimulator.ClassifiedAs | treeminer/server/chain_simulator.py:137-148 | super from fifty capital letters on, normal below, XUNI only without the marker and in its time |
| ChainSimulator.UppercaseCounts | treeminer/server/chain_simulator.py:140 | the count is the number of positions with a capital letter |
| ChainSimulator.LowerLetters | treeminer/server/chain_simulator.py:207 | lower-casing turns each capital letter into its small one and keeps the rest |
| ChainSimulator.FoundIff | treeminer/server/chain_simulator.py:236-242 | the limited prefix query finds a key exactly when fewer than the limit of newer blocks share its prefix |
| ChainSimulator.HitAt | treeminer/server/chain_simulator.py:236-242 | a block stands right after the newer blocks on its prefix |
| ChainSimulator.ChainSimulator.SubmitBlock | treeminer/server/chain_simulator.py:164-219 | the statements equal the submission function, refusals included |
| ChainSimulator.ChainSimulator.GetBlocksByKeyPrefix | treeminer/server/chain_simulator.py:236-242 | newest first, cut at the limit |
| ChainSimulator.ChainSimulator.ClassifyBlock | treeminer/server/chain_simulator.py:137-148 | marker, uppercase count, XUNI window |
| Watcher.VerifiedIff | treeminer/server/watcher.py:72-89 | a report is chain-verified if and only if its exact key is on the chain with fewer than 100 newer blocks on its 16-character prefix |
| Watcher.PrefixValidIff | treeminer/server/watcher.py:60-70 | a prefix is met exactly when the first sixteen characters of the key differ from it at most in case |
| Watcher.ReportedRows | treeminer/server/watcher.py:36-136 | what a report adds with a lease, without one, and under an unknown one |
| Watcher.ReportKeepsCount | treeminer/server/watcher.py:91-107 | the lease counter stays the number of rows both prefix-valid and chain-verified |
| Watcher.ReportKeepsRowsOnChain | treeminer/server/watcher.py:72-103 | leased rows marked verified name keys the chain knows |
| Watcher.BlockWatcher.Scan | treeminer/server/watcher.py:72-89 | the loop over the prefix query equals the lookup |
| Watcher.BlockWatcher.HandleBlockFound | treeminer/server/watcher.py:36-116 | row and counter as the report function says |
| Marketplace.MoneyStep | treeminer/server/settlement.py:37-119 | every handler keeps balances audited and the total explained |
| Marketplace.RelatedStep | treeminer/server/storage/_schema.py:43-145 | every handler keeps the unique index and foreign keys |
| Marketplace.SettlementStep | treeminer/server/settlement.py:37-119 | every handler keeps: ended leases charged once, active ones never |
| Marketplace.SettleEffect | treeminer/server/settlement.py:43-119 | what one settlement adds: duration, clamped charge and both shares, and the three rows |
| Marketplace.LifeStep | treeminer/server/storage/leases.py:67-116 | every handler moves each lease only forward: terms fixed, counters grow, an end is final |
| Marketplace.SolventStep | treeminer/server/settlement.py:64-71 | no handler makes a balance negative unless an account was opened in debt |
| Marketplace.RunHolds | treeminer/server/matcher.py:54-229 | the main theorem: all of the above in every state every run of handlers reaches |
| Marketplace.LeasesNeverReturn | treeminer/server/storage/leases.py:67-78 | between any two moments of any run no lease disappears or becomes active again, and its end time stays |
| Marketplace.StrandedIff | treeminer/server/storage/accounts.py:141-164 | stranded money is zero exactly when the run has no stranding transfer: a positive amount, a sender that can pay it, and a recipient without an account |
| Marketplace.MoneyConserved | treeminer/server/storage/accounts.py:115-164 | over every run the balances sum to funding plus deposits minus withdrawals if and only if the run has no stranding transfer |
| Marketplace.MoneyCanBeStranded | treeminer/server/storage/accounts.py:141-164 | a concrete run of two events after which 10 were funded and 5 are left |
| Marketplace.BalancesExplained | treeminer/server/storage/accounts.py:115-188 | every balance is its opening plus the signed sum of its transactions, and not negative |
| Marketplace.OneActiveLease | treeminer/server/matcher.py:131-194 | no run gives a worker two active leases, whatever workers report about themselves |
| Marketplace.ChargedExactlyOnce | treeminer/server/settlement.py:37-119 | in every reachable state an active lease was never charged and an ended one exactly once; its record says how long it lasted, its charge is that times its price clamped to the balance of that moment, and the next two rows pay 95 and 5 hundredths of it |
| Marketplace.CountersAgree | treeminer/server/watcher.py:105-107 | in every reachable state a lease's counter is its number of verified rows, whose keys are on the chain |
| Watcher.ReportSelf | treeminer/server/watcher.py:118-136 | a report widens the gap between a worker's rows without a lease and its own counter exactly when the worker is not registered |
| Marketplace.SelfStep | treeminer/server/storage/workers.py:111-116 | no other handler changes that gap, registration included |
| Marketplace.SelfCountedIff | treeminer/server/watcher.py:118-136 | over every run a worker's own counter never exceeds its rows without a lease, and is their number if and only if it never reported such a block while not registered |
| Marketplace.SelfBlockUncounted | treeminer/server/watcher.py:118-136 | a concrete run, a report and then a registration, that leaves the counter behind |
| PlatformManager.StepSteady | treeminer/src/PlatformManager.cpp:376-521 | every handler keeps: the context has the address, prefix, consumer and id of the lease held, MINING implies a lease, LEASED and COMPLETED are only passed through |
| PlatformManager.RunSteady | treeminer/src/PlatformManager.cpp:88-189 | the same in every state reachable by start, stop, commands, watchdog and block reports |
| PlatformManager.TaskTaken | treeminer/src/PlatformManager.cpp:393-455 | exactly which tasks are taken, and what lease and context they start: their own id, consumer, address, prefix and duration |
| PlatformManager.LeaseEnds | treeminer/src/PlatformManager.cpp:457-486 | how a release or an expiry ends a lease: reports, own context, available |
| PlatformManager.OtherCommands | treeminer/src/PlatformManager.cpp:376-521 | what acknowledgement, pause and resume do |
| PlatformManager.StartAndStop | treeminer/src/PlatformManager.cpp:88-189 | what starting, failing to, recovering and stopping do |
| PlatformManager.BlockReports | treeminer/src/PlatformManager.cpp:201-217 | under which lease a block is counted and reported, and when it is not |
| PlatformManager.Alphabets | treeminer/src/platform/CommandEnvelope.cpp:45-57 | which characters hexadecimal texts and identifiers may hold |
| PlatformManager.ExpiredAt | treeminer/src/LeaseManager.cpp:109-117 | the first clock reading, in nanoseconds, at which a lease is expired |
| PlatformManager.CoherentIff | treeminer/src/PlatformManager.cpp:376-391 | "MINING exactly when a lease is held" is lost in exactly these events: an acknowledgement during a lease, or pause or stop on an expired one |
| PlatformManager.RunCoherentIff | treeminer/src/PlatformManager.cpp:376-521 | over every run: it is true after every event if and only if no event strands a lease in that way |
| PlatformManager.LeaseCanBeStranded | treeminer/src/PlatformManager.cpp:376-391 | a concrete run to AVAILABLE with a lease still held |
| PlatformManager.StrandedLeaseStays | treeminer/src/PlatformManager.cpp:457-521 | what ends such a lease: a matching release, or pause or stop before its expiry; never the watchdog or a new task |
| PlatformManager.BlockCredited | treeminer/src/PlatformManager.cpp:201-217 | a block is credited to the lease exactly when it is reported under a lease id |
| PlatformManager.CreditedSince | treeminer/src/PlatformManager.cpp:201-217 | over every run the lease's block count is the number of leased block reports since it began |
| PlatformManager.RemainingIffActive | treeminer/src/LeaseManager.cpp:77-117 | for every duration and clock: time remains as long as the lease is active exactly before expiry or while the low 32 bits of the elapsed seconds, read as signed, are not below the duration; without a duration, exactly while they read below it |
| PlatformManager.OverflowIff | treeminer/src/LeaseManager.cpp:84 | exactly the elapsed seconds at which the 32-bit subtraction stays in range |
| PlatformManager.FirstYears | treeminer/src/LeaseManager.cpp:82-85 | the first 2^31 seconds of a lease with a duration are such a case |
| PlatformManager.ExpiryIsFinal | treeminer/src/LeaseManager.cpp:109-117 | expiry is final |
| PlatformManager.LeaseManager.StartLease | treeminer/src/LeaseManager.cpp:5-34 | refused while any lease is held |
| PlatformManager.LeaseManager.RemainingSeconds | treeminer/src/LeaseManager.cpp:77-86 | positive as long as the lease is active exactly in those cases, and then the seconds to its expiry |
| PlatformManager.LeaseManager.ToMiningContext | treeminer/src/LeaseManager.cpp:88-107 | the context mirrors the lease |
| PlatformManager.PlatformManager.TransitionTo | treeminer/src/PlatformManager.cpp:227-249 | a real change is reported with the lease id of that moment |
| PlatformManager.PlatformManager.Start | treeminer/src/PlatformManager.cpp:88-146 | connect, register, available; refused connection is the error state |
| PlatformManager.PlatformManager.Stop | treeminer/src/PlatformManager.cpp:148-189 | idempotent; an active lease is dropped, the miner reports itself offline, and the last change of state goes unreported |
| PlatformManager.PlatformManager.HandleAssignTask | treeminer/src/PlatformManager.cpp:393-455 | rejections leave everything as it was |
| PlatformManager.PlatformManager.HandleRelease | treeminer/src/PlatformManager.cpp:457-486 | only a matching release ends the lease |
| PlatformManager.PlatformManager.HandlePause | treeminer/src/PlatformManager.cpp:497-503 | an active lease is dropped, an expired one is not |
| PlatformManager.PlatformManager.WatchdogRound | treeminer/src/PlatformManager.cpp:655-677 | expiry and recovery |
| PlatformManager.PlatformManager.OnBlockFound | treeminer/src/PlatformManager.cpp:201-217 | counted and reported under the lease, or without one |
| PlatformManager.PlatformManager.Handle | treeminer/src/PlatformManager.cpp:339-521 | every event as the source dispatches it, keeping the invariant |
| CommandQueue.StepOrderly | treeminer/src/PlatformManager.cpp:253-298 | one locked section keeps the queue's invariant |
| CommandQueue.RunOrderly | treeminer/src/PlatformManager.cpp:253-298 | under every interleaving: dispatched then queued is accepted, in arrival order; accepted plus dropped is received; never above 256 |
| CommandQueue.Admission | treeminer/src/PlatformManager.cpp:253-280 | exactly which commands join the queue: at most 65536 characters, fewer than 256 waiting |
| CommandQueue.Running | treeminer/src/PlatformManager.cpp:282-298 | what launching, halting and handing out change |
| CommandQueue.HeadStays | treeminer/src/PlatformManager.h:155-159 | a flood cannot displace what was accepted |
| CommandQueue.Queue.EnqueueCommand | treeminer/src/PlatformManager.cpp:253-280 | oversized or overflowing commands are dropped and counted |
| CommandQueue.Queue.DispatchOne | treeminer/src/PlatformManager.cpp:282-298 | the oldest command is handed out |
| MqttCodec.LengthRoundTrip | treeminer/server/broker.py:41-68 | decoding an encoded length with anything after it gives the number and consumes exactly its bytes |
| MqttCodec.LengthSize | treeminer/server/broker.py:41-51 | at most k bytes exactly below 128^k |
| MqttCodec.StandardRange | treeminer/server/broker.py:41-51 | 1 to 4 bytes exactly up to 268435455, the range of section 2.2.3 of MQTT 3.1.1 |
| MqttCodec.EncodeRemainingLength | treeminer/server/broker.py:41-51 | the loop emits the base-128 digits |
| MqttCodec.DecodeRemainingLength | treeminer/server/broker.py:54-68 | the multiplier loop reads them, or fails when the bytes end |
| MqttCodec.StringRoundTrip | treeminer/server/broker.py:71-84 | a string written anywhere in a packet is read back by both decoders, up to its end |
| MqttCodec.PublishRoundTrip | treeminer/server/broker.py:313-323 | broker and client both read topic, payload and service level as either wrote them, for every packet id |
| MqttCodec.PublishIdRoundTrip | treeminer/server/broker.py:320-327 | the id a publish carries is the id it is acknowledged with |
| MqttCodec.ReadersAgree | treeminer/server/simulator.py:226-232 | whatever the broker accepts the looser client reads the same |
| MqttCodec.SubscribeRoundTrip | treeminer/server/broker.py:364-377 | a subscription is read back with its filter and level |
| MqttCodec.FilterListRead | treeminer/server/broker.py:364-396 | any list of filters, with or without option bytes, is read back |
| MqttCodec.AnswersSpelled | treeminer/server/broker.py:379-396 | the answers byte by byte |
| MqttCodec.AckIsFrame | treeminer/server/broker.py:394-396 | the two-byte answers are well-formed packets |
| MqttCodec.SubackIsFrameIff | treeminer/server/broker.py:379-382 | the SUBACK's single length byte is a valid remaining length exactly up to 125 filters |
| MqttTopics.JoinSplit | treeminer/server/broker.py:89-90 | joining the levels of a text gives the text |
| MqttTopics.SplitJoin | treeminer/server/broker.py:89-90 | splitting joined levels gives the levels |
| MqttTopics.TopicMatches | treeminer/server/broker.py:87-105 | the two-pointer loop decides the quantified condition for every filter, also malformed ones |
| MqttTopics.MatcherMeetsStandard | treeminer/server/broker.py:87-105 | for every well-formed filter and every topic that is the recursive definition of sections 4.7.1.2 and 4.7.1.3 of MQTT 3.1.1 |
| MqttTopics.MatcherIgnoresTail | treeminer/server/broker.py:93-94 | on any filter, what follows the first # level is ignored |
| MqttTopics.ParentLevel | treeminer/server/broker.py:103-104 | # takes the parent level and all below it, + exactly one level |
| MqttStream.FrameRoundTrip | treeminer/server/broker.py:399-409 | the first packet is cut off a stream exactly |
| MqttStream.PacketsRoundTrip | treeminer/server/broker.py:214-233 | concatenated packets are cut apart again, whatever follows |
| MqttStream.StreamReader.ReadExact | treeminer/server/broker.py:260-267 | exactly n bytes under any fragmentation, or failure when the stream is shorter |
| MqttStream.StreamReader.ReadLengthBytes | treeminer/server/broker.py:221-229 | byte by byte up to the first without the top bit |
| MqttBroker.Broker.AnyMatch | treeminer/server/broker.py:348-355 | the search stops at the first matching filter and misses none |
| MqttBroker.Broker.Route | treeminer/server/broker.py:343-355 | every other client with a matching filter gets exactly one copy, in whatever order clients are visited |
| MqttBroker.Broker.Publish | treeminer/server/broker.py:157-180 | the platform's messages go to every client with a matching filter |
| MqttBroker.Broker.HandlePublish | treeminer/server/broker.py:313-362 | acknowledge, route, hand to the handlers; an unreadable body ends the connection |
| MqttBroker.Broker.HandleSubscribe | treeminer/server/broker.py:364-382 | filters added and answered in order |
| MqttBroker.Broker.HandleUnsubscribe | treeminer/server/broker.py:384-396 | filters removed and answered |
| MqttBroker.PublishCopies | treeminer/server/broker.py:313-362 | byte by byte what a publish writes to its sender and to every other client |
| MqttBroker.AnnounceCopies | treeminer/server/broker.py:157-180 | the same for the platform's own messages |
| MqttBroker.SubscribeAdds | treeminer/server/broker.py:364-382 | for any list: exactly the named filters are added and answered, with the packet's id and level 1 at most |
| MqttBroker.UnsubscribeRemoves | treeminer/server/broker.py:384-396 | for any list: none of the named filters is left and all others are |
| MqttBroker.OtherPackets | treeminer/server/broker.py:240-246 | a ping is answered, a disconnect ends the connection, the rest is ignored |
| MqttBroker.Broker.ReadPacket | treeminer/server/broker.py:215-233 | the broker's reading loop equals the cutting function |
| MqttBroker.Broker.HandleConnection | treeminer/server/broker.py:214-258 | for every byte stream under every fragmentation the session does what its packets say, then is removed |
| MqttBroker.ServedStep | treeminer/server/broker.py:214-258 | a connection is its first packet and the rest; after a failure nothing more counts |
| MqttClient.AsyncMqttClient.Send | treeminer/server/simulator.py:157-178 | one well-formed packet per call, with the next packet id |
| MqttClient.AsyncMqttClient.LengthOf | treeminer/server/simulator.py:198-201 | the client's own length loop decodes the same number |
| MqttClient.AsyncMqttClient.ReadPacket | treeminer/server/simulator.py:183-204 | the client's reading loop equals the cutting function |
| MqttClient.AsyncMqttClient.ReadLoop | treeminer/server/simulator.py:180-215 | the callback is given what the packets say, under every fragmentation |
| MqttDelivery.ClientToBroker | treeminer/server/simulator.py:167-178 | the bytes of any series of calls, fragmented anyhow and with any cut-off packet after them, give the broker's handlers exactly the calls' messages |
| MqttDelivery.ServeClient | treeminer/server/broker.py:214-258 | the two programs together: the client's writing loop feeds the broker's connection, whose handlers get the messages; no other client is removed |
| MqttDelivery.OwnCallsModest | treeminer/server/simulator.py:157-165 | the repository's own client meets the condition of the next theorem: one filter to a subscription |
| MqttDelivery.CallsAreHandled | treeminer/server/broker.py:313-382 | every publish a client can encode is handled in order with topic, payload and level, and exactly the filters it names are added |
| MqttDelivery.CallsAreAnswered | treeminer/server/broker.py:325-382 | over any series of calls the client is written, in order, the acknowledgement of each publish at level 1 and of each subscription, under its own packet id |
| MqttDelivery.BrokerToClient | treeminer/server/broker.py:313-362 | under any interleaving of connections a client that stays connected decodes exactly the messages its filters took at each moment, in order |
| MqttDelivery.ClientToClient | treeminer/server/broker.py:342-355 | what one client publishes another decodes: the messages its filters take, in order, at level at most 1 |
| MqttDelivery.AnswerBytes | treeminer/server/broker.py:364-396 | the bytes a client gets for its own packet are the answer's packet if and only if it is not a subscription to more than 125 filters; then one byte is missing |
| MqttDelivery.StepBytes | treeminer/server/broker.py:313-409 | every event writes a client whole packets if and only if it is not such a subscription of its own |
| MqttDelivery.RunBytesIff | treeminer/server/broker.py:214-258 | over any interleaving, what a client that stays connected is written are its packets one after another if and only if it made no such subscription |
| MqttDelivery.LongSubscription | treeminer/server/broker.py:364-382 | a subscription to 126 filters that the broker accepts and answers with a byte missing |
| MqttDelivery.LongSubscriptionLoses | treeminer/server/simulator.py:180-204 | a run of two events in which that answer makes the client miss a message it ought to be given |
| MerkleTree.RootBinds | treeminer/src/MerkleTree.cpp:57-75 | lists of one length with one root are equal, or the two returned texts, hashed by the builder, collide |
| MerkleTree.LevelBinds | treeminer/src/MerkleTree.cpp:64-72 | the same for one level |
| MerkleTree.SameRootIff | treeminer/src/MerkleTree.cpp:58-75 | for nonempty lists of any two lengths: one root exactly when the shallower list and the level of the deeper one at its depth become equal once every odd level's last node is repeated up to a perfect tree, or two returned texts, one hashed for each list, collide |
| MerkleTree.SameRootIffSameShape | treeminer/src/MerkleTree.cpp:58-75 | an equivalence when no two texts hashed for the lists collide |
| MerkleTree.SameRootPerfect | treeminer/src/MerkleTree.cpp:58-75 | the part for lists of equal depth |
| MerkleTree.PerfectSameRoot | treeminer/src/MerkleTree.cpp:58-75 | its converse, for every hash |
| MerkleTree.PerfectStep | treeminer/src/MerkleTree.cpp:64-72 | the repetition hashes no new text and commutes with going one level up |
| MerkleTree.LevelAccepted | treeminer/src/MerkleTree.cpp:58-62 | every level above a list, down to the root alone, has the root of the list |
| MerkleTree.DistinctLeavesBind | treeminer/src/MerkleTree.cpp:58-75 | when the length is bound: lists without repeated elements, none of whose elements is the hash of a text hashed for the other, are equal if their roots are, or a collision is returned |
| MerkleTree.OddLastRepeated | treeminer/src/MerkleTree.cpp:67 | one family of different lists with one root: an odd list and the same list with its last element again |
| MerkleTree.Tree.BuildTree | treeminer/src/MerkleTree.cpp:58-75 | terminates for nonempty input, computes the root, and keeps every entry's key the hash of its children |
| MerkleTree.SmallTrees | treeminer/src/MerkleTree.cpp:58-75 | the trees over one, two and three elements, written out |
| MerkleTree.EmptyStaysEmpty | treeminer/src/MerkleTree.cpp:58-74 | the level above the empty level, and no other, is empty: from it the recursion meets the empty level for ever |
| MerkleTree.Tree.constructor | treeminer/src/MerkleTree.cpp:8-10 | root and map of a new tree, for every list on which the original terminates |
| ConfigManager.TrimMeaning | treeminer/src/ConfigManager.cpp:37-46 | trimming is idempotent, cuts only blanks and leaves exactly the trimmed texts alone |
| ConfigManager.RoundTripIff | treeminer/src/ConfigManager.cpp:7-35 | for every iteration order, loading a saved map gives it back if and only if keys are trimmed without = or newline and values trimmed without newline |
| ConfigManager.LineRead | treeminer/src/ConfigManager.cpp:10-17 | what any one line does, with or without an equals sign |
| ConfigManager.LoadedIsClean | treeminer/src/ConfigManager.cpp:10-17 | whatever the file, only such entries are loaded |
| ConfigManager.Manager.LoadConfig | treeminer/src/ConfigManager.cpp:7-19 | the line loop adds the file's entries to those held |
| ConfigManager.Manager.SaveConfig | treeminer/src/ConfigManager.cpp:29-35 | every entry once, in some order |
| ConfigManager.SaveThenLoad | treeminer/src/ConfigManager.cpp:7-35 | a fresh manager loads what another saved, exactly when every entry is clean, and then answers every query the same |
| ConfigManager.SetThenRestart | treeminer/src/ConfigManager.cpp:21-27 | a value that is set survives a restart exactly when its entry is clean |
| Base64.LengthCoversBits | treeminer/src/hashapi/HashApiEncoding.cpp:13-18 | the length is the least number of letters that covers all bits |
| Base64.SextetsOfGroup | treeminer/src/hashapi/HashApiEncoding.cpp:26-35 | four six-bit groups of the bit string are three bytes, as section 4 of RFC 4648 groups them |
| Base64.GroupSextets | treeminer/src/hashapi/HashApiEncoding.cpp:27-34 | the shifts out of the 24-bit number are those groups |
| Base64.EncodeInto | treeminer/src/hashapi/HashApiEncoding.cpp:20-51 | the offset loop outputs exactly the letters of the bit string, all lengths |
| Base64.RoundTrip | treeminer/src/hashapi/HashApiEncoding.cpp:20-51 | an unpadded decoder recovers the bytes |
| Base64.AllLetters | treeminer/src/hashapi/HashApiEncoding.cpp:6-9 | only letters of the alphabet, never $ |
| Base64.LetterValue | treeminer/src/hashapi/HashApiEncoding.cpp:6-9 | the table lists each letter at its value |
| Phc.DigestIff | treeminer/src/CpuMiningWorker.cpp:21-33 | exactly the nonempty texts after the last $ of a string that begins with the protocol parameters are returned |
| Phc.EncodedDigestReturned | treeminer/src/CpuMiningWorker.cpp:21-33 | the encoded digest comes back, whatever the salt |
| Phc.DecimalReadsBack | treeminer/src/CpuMiningWorker.cpp:23 | the difficulty is written as its decimal number |
| Phc.ParametersSpelled | treeminer/src/CpuMiningWorker.cpp:23 | the parameters at one difficulty, letter by letter |
| AttemptAccounting.ConservedIff | treeminer/src/MineUnit.cpp:130-148 | over any series of batches in which no hash is rejected, what is charged is the total attempts exactly when every match index is within its batch |
| AttemptAccounting.CpuConservedIff | treeminer/src/CpuMiningWorker.cpp:267-296 | for the CPU worker, rejected hashes included: after every batch reports plus residual are the attempts counted if and only if every batch is exact, that is, in range, or with the matches up to its rejected hash reaching just its end |
| AttemptAccounting.CpuTotalIff | treeminer/src/CpuMiningWorker.cpp:267-296 | the end total of a run alone: conserved exactly when all indices are in range or, with a rejected hash, when the last batch falls short by just what the earlier ones were overcharged |
| AttemptAccounting.RejectLosesAttempts | treeminer/src/CpuMiningWorker.cpp:274 | a batch in range with a rejected hash: ten attempts counted, four accounted for |
| AttemptAccounting.LossesCanCancel | treeminer/src/CpuMiningWorker.cpp:267-296 | a run without an exact batch whose end total is right all the same |
| AttemptAccounting.ChargedIff | treeminer/src/CpuMiningWorker.cpp:294-296 | the same for one batch |
| AttemptAccounting.ChargedIsLeast | treeminer/src/CpuMiningWorker.cpp:267-296 | the charge is the least number that covers the batch and every match |
| AttemptAccounting.ReportsCover | treeminer/src/CpuMiningWorker.cpp:267-292 | one report for every submitted match, and together they cover everything up to it |
| AttemptAccounting.CpuWorker.RunBatch | treeminer/src/CpuMiningWorker.cpp:261-296 | in any match order, with repeats and skipped digests: each report covers up to its own match, and report sum plus residual grows by the batch or, when a hash is rejected, by what the matches up to it reach |
| AttemptAccounting.CpuWorker.Run | treeminer/src/CpuMiningWorker.cpp:223-300 | the loop ends with the first batch that has a rejected hash; attempts counted and accounted for are those of the batches run, in both outcomes |
| AttemptAccounting.GpuUnit.SubmitMatches | treeminer/src/MineUnit.cpp:130-148 | the same with every match submitted |
| AttemptAccounting.GpuUnit.Run | treeminer/src/MineUnit.cpp:130-148 | over any series of batches reports plus residual are the total attempts exactly when every match index is within its batch |
| DevFee.SchedulesAgreeIff | treeminer/src/main.cpp:1315-1324 | GPU and CPU formulas agree on every slot exactly for permillages up to 1000, which are all the program starts with |
| DevFee.FeeShare | treeminer/src/MineUnit.cpp:73-98 | any 1000 consecutive plain batches, wherever they begin, pay exactly the permillage, half of it (rounded down) to the ecosystem if it has an address |
| DevFee.GpuUnit.Batch | treeminer/src/MineUnit.cpp:63-98 | recipient and counter of one turn |
| DevFee.GpuUnit.PlainBatches | treeminer/src/MineUnit.cpp:73-98 | an uninterrupted series follows the schedule |
| DevFee.CpuSequence.Batch | treeminer/src/main.cpp:1303-1330 | recipient and shared counter of one call, with 64-bit wrap-around |
| DevFee.FollowsIff | treeminer/src/main.cpp:1315-1324 | for every counter value, series, permillage and address setting: the CPU batches follow the GPU's schedule exactly when there is none, no fee, all go to the developer, or the permillage p is at most 1000 and the series ends at most max(0, 384 - p) past 2^64 |
| DevFee.WindowAtWrap | treeminer/src/main.cpp:1316 | exactly which windows of 1000 CPU batches across the 2^64 wrap pay the permillage |
| DevFee.CpuSequence.PlainBatches | treeminer/src/main.cpp:1315-1324 | any series, across the wrap as well, takes the slots of the wrapping counter and follows the GPU's schedule under exactly that condition |
| DevFee.WrapSkipsFees | treeminer/src/main.cpp:1316 | a concrete window at the 2^64 wrap without any fee, for permillages up to 384 |

## Left out

- Interleavings at `await` points inside one handler, and thread interleavings inside one C++ handler: a handler is one atomic step.
- SQLite's implicit transaction after a failed statement: the debit of a stranding transfer is taken as visible from then on.
- Floating-point rounding of balances, prices and hash rates: money and rates are `real`.
- Wrap-around of `size_t` in buffer lengths and of attempt counters; message lengths are below 2^64.
- Big-endian hosts, where the final fold would store words in another order.
- SHA-256, the filling passes of Argon2, signature checks and address checksums: the Merkle hash is a parameter, the address verdict and the hexadecimal check of a block key are given booleans.
- Authorisation of commands (signed envelopes, nonce cache) and the commands that set configuration.
- The rest of a row's columns (GPU lists, time stamps, online time), which no modelled handler reads back.
- UTF-8 decoding and JSON: MQTT texts are their bytes, and a text that is not UTF-8 is not told apart. Case folding is that of ASCII.
- The CONNECT handshake, session takeover by a second connection of the same client, failing writes, and topics that start with `$`.
- MqttDelivery.BrokerToClient: assumes the client's own subscriptions have at most 125 filters each, because the broker's longer answers break the framing; the repository's own client names one.
- PlatformManager.LeaseManager.RemainingSeconds: takes the mathematical difference at the elapsed seconds `PlatformManager.OverflowIff` names, where the original's 32-bit subtraction overflows and the language leaves the result undefined. For a lease with a duration d that is when the seconds modulo 2^32 lie between 2^31 and 2^31 + d.
- AttemptAccounting.CpuWorker.Run: counts the residual as carried also at the end, although a worker that ends, for whatever reason, drops it unreported.
- MerkleTree.Tree.constructor: excludes the empty list, on which the original recurses without end (`MerkleTree.EmptyStaysEmpty`).
- How hash backends find matches, and the GPU kernels: their results are arbitrary batches here.
- What becomes of a found block after its submission is called for: journal, fallback, retry and circuit breaker.
- Price search and suggestions, reputation, reports over time, dashboards, telemetry and schema migrations: they read the tables but change none that the model keeps.
