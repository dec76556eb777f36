# LedgerLens in Dafny

A model of the LedgerLens contracts and tools, with proofs of what they promise.

LedgerLens registers risk scores for wallets on Soroban. The score contract bills gate
queries from prepaid credits, pays keepers for renewing score entries, accepts
service-signed scores from any relayer, checks attested batches against Merkle roots, and
governs its own parameters and signers. An aggregator fans queries out to several score
contracts. Python tools keep a reference model of the arithmetic, turn TLC traces into
replays and spread tests over CI shards.

| modules | what they model |
|---|---|
| `MerkleBatch` | batch trees, proofs and the on-chain proof check |
| `FeeSchedule`, `GateCredits` | tiered gate fees; deposits, delayed withdrawals, metered queries, revenue |
| `RentQueue`, `KeeperPool` | the expiry queue of score entries; keeper renewals and rewards |
| `RelayPreimage`, `AttestedRelay` | the signed byte string; the permissionless relay and its tips |
| `ContractSpec`, `ContractRuns`, `CreditRuns`, `MeterRuns`, `TipRuns`, `RelayRuns`, `RentRuns`, `TokenRuns`, `SettingRuns`, `CallRuns` | the three ledgers over shared token accounts as one state machine; what holds of every run |
| `ScoreContract` | the contract object, whose entry points update storage in source order and are proved to be steps of that machine |
| `Fingerprints`, `SplitBrain`, `ShardAggregator`, `ReadMemo` | canonical configuration, the split-brain report, the shard registry and its queries, memoised reads |
| `ParameterGovernance`, `SignerIndex` | governed parameters; signer records and the index of active signers |
| `ScoreDecay`, `WeightedAggregate`, `ReferenceModel` | the fixed-point decay factor, the weighted average, the reference model object |
| `TlcParser`, `TlcSyntax`, `TlcPrinter`, `TlcLanguage` | the TLC value parser, the texts it reads, printing, and exactly what it accepts |
| `TestPartition` | the duration-balanced test scheduler |
| `Bytes`, `Sequences`, `Sums`, `Tokens`, `Options`, `Errors` | shared definitions |

A failed contract call leaves storage and token balances as they were, because the host
discards its writes. Token contracts are a map of holdings with a transfer that may trap.
Hashing and signature checks are parameters; where a result needs a hash without
collisions it says on which strings. What the shards answer, the clock and the ledger
sequence number are parameters too.

Where code and documentation disagree the model follows the code:

- the comment on `withdraw_gate_credits` says a request is cleared even when the balance is
  too low; a due request is cleared exactly when it is paid
  (`GateCredits.DueRequestClearedExactly`);
- the comment on the marks of relayed attestations says that callers cap the expiry inside the
  lifetime of the mark; nothing does, and the cap is exactly what rules out a second
  acceptance (`RelayRuns.AcceptedAgainExactly`);
- the comment on parameter validation says that no setter can bypass the limits; the setters
  for cooldown and staleness window check one parameter at a time
  (`ParameterGovernance.RunInBoundsExactly`);
- the comment on keeper eligibility says a renewed entry cannot be rewarded again at once;
  that holds exactly for windows below the threshold (`KeeperPool.NoRepeatInBatch`,
  `KeeperPool.RepeatAtFullWindow`);
- the findings list of the reference model puts the rebound of the decay factor near 3.3;
  it is at 2.785294 (`ScoreDecay.FullWeightExactly`);
- the gate of the aggregator is open when every registered shard is unhealthy
  (`ShardAggregator.AllUnhealthyOpensGate`).

## Model

| member | source | states |
|---|---|---|
| `MerkleBatch.VerifyMerkleProof` | contracts/ledgerlens-score/src/lib.rs:13569-13592 | the on-chain check accepts exactly the proofs of at most thirty digests whose climb from the leaf, bit by bit of the flags, ends at the root |
| `MerkleBatch.HashedLayout` | contracts/ledgerlens-score/benches/batch_attested.rs:102-115 | what is hashed: 33 bytes starting with 0 and the commitment for a leaf, 65 bytes starting with 1 and the two children in order for a node; no string is both |
| `MerkleBatch.HashPairs` | contracts/ledgerlens-score/benches/batch_attested.rs:120-125 | one level of hashing is one level of the tree: the digests of the next level are the roots of the paired subtrees |
| `MerkleBatch.BuildMerkleRoot` | contracts/ledgerlens-score/benches/batch_attested.rs:117-129 | the level loop over any power-of-two leaf list returns the root of the one tree over those leaves |
| `MerkleBatch.BuildMerkleProof` | contracts/ledgerlens-score/benches/batch_attested.rs:131-157 | for every index the proof has the depth of the tree, its flags are the index itself, and climbing it from that leaf gives the root |
| `MerkleBatch.TreeOverUnique` | contracts/ledgerlens-score/benches/batch_attested.rs:117-129 | a leaf list has exactly one tree of its depth, so the root and every proof talk about the same tree |
| `MerkleBatch.PairUpKeepsTips` | contracts/ledgerlens-score/benches/batch_attested.rs:119-127 | pairing neighbours keeps the leaves and their order from level to level |
| `MerkleBatch.ClimbReachesTip` | contracts/ledgerlens-score/src/lib.rs:13580-13592 | with a hash that does not collide on the strings actually hashed, a climb from a leaf digest that ends at the root of a subtree has exactly its depth and started at the leaf the flags name |
| `MerkleBatch.ClimbSound` | contracts/ledgerlens-score/src/lib.rs:13569-13592 | no forgery: any commitment with any proof of any length and any flags that climbs to the root is the commitment at the position given by the low bits of the flags, and the proof has exactly the depth of the tree |
| `MerkleBatch.NextPow2` | contracts/ledgerlens-score/benches/batch_attested.rs:171-177 | the least power of two not below the argument, within 32 bits |
| `MerkleBatch.BuildLeaves` | contracts/ledgerlens-score/benches/batch_attested.rs:213-235 | the leaf digests of the batch, padded by repeating the last one |
| `MerkleBatch.BuildChunk` | contracts/ledgerlens-score/benches/batch_attested.rs:202-255 | every entry of a batch keeps its commitment, its flags are its position, and the on-chain check accepts it against the batch root |
| `MerkleBatch.AcceptedEntryIsInBatch` | contracts/ledgerlens-score/src/lib.rs:13569-13592 | padding gives nothing away: whatever is accepted against a batch root is one of the commitments of the batch |
| `TestPartition.LoadDurations` | tools/ci/partition_tests.py:38-55 | per test the worst time among the cases that parse, never negative, and no entry for a test without one |
| `TestPartition.MedianSplits` | tools/ci/partition_tests.py:59-60 | at least half of the known durations do not exceed the fallback and at least half do not fall below it |
| `TestPartition.MedianExactly` | tools/ci/partition_tests.py:59-60 | the fallback is halfway between the lower and the upper middle of the known durations, which coincide for an odd number of them |
| `TestPartition.MedianIsUnique` | tools/ci/partition_tests.py:59-60 | there is only one such value |
| `TestPartition.KnownExactly` | tools/ci/partition_tests.py:59 | the durations it is taken from are those of the listed tests that have one, repetitions included |
| `TestPartition.FallbackExactly` | tools/ci/partition_tests.py:59-60 | a test without history counts 0.05 when no listed test has one, and that median otherwise |
| `TestPartition.SortOrdered` | tools/ci/partition_tests.py:61-64 | a permutation of its input in the order decreasing weight, then test |
| `TestPartition.LeastLoadedShard` | tools/ci/partition_tests.py:68 | the first of the least-loaded shards |
| `TestPartition.PlaceAll` | tools/ci/partition_tests.py:65-71 | the loop places every test in order on the first least-loaded shard; loads and buckets are those of that assignment |
| `TestPartition.Partition` | tools/ci/partition_tests.py:58-71 | every test, counted with repetitions, lands in exactly one bucket; tests are placed by decreasing weight and then rank, each on the first least-loaded shard of its moment; every load is the sum over its bucket of the recorded durations, or of the fallback for a test without one; for every non-negative history the loads are within both bounds below of every way to spread these times |
| `TestPartition.WeightsNonNegative` | tools/ci/partition_tests.py:59-64 | with non-negative durations every weight, the fallback included, is non-negative |
| `TestPartition.LoadsAddUp` | tools/ci/partition_tests.py:65-70 | the loads of any assignment add up to the total weight |
| `TestPartition.LoadIsTime` | tools/ci/partition_tests.py:65-71 | the load an assignment gives a shard is what the tests of its bucket take |
| `TestPartition.ReorderedNearOptimal` | tools/ci/partition_tests.py:61-70 | near-optimality does not depend on the order in which the weights are listed |
| `TestPartition.LoadsAreClose` | tools/ci/partition_tests.py:67-70 | any two loads differ by at most the largest weight |
| `TestPartition.GreedyWithinTwice` | tools/ci/partition_tests.py:67-70 | for every order of the tests and every other assignment, no shard exceeds (2 - 1/m) times the other makespan |
| `TestPartition.LargeLastFits` | tools/ci/partition_tests.py:67-70 | when the last and smallest weight exceeds a third of the other makespan, its shard does not exceed that makespan |
| `TestPartition.LptWithinFourThirds` | tools/ci/partition_tests.py:61-70 | for the decreasing order and every other assignment, no shard exceeds (4/3 - 1/(3m)) times the other makespan |
| `TestPartition.PartitionNearOptimal` | tools/ci/partition_tests.py:58-71 | both bounds hold for the loads of every call with a non-negative history, against every assignment of the times of the listed tests |
| `TestPartition.FourThirdsIsTight` | tools/ci/partition_tests.py:58-71 | an instance on two shards that attains the second bound |
| `TlcParser.Advance` | tools/generate_tla_replay_traces.py:26-42 | one character moves the scanner between depth, quoted and escaped states as specified, and cuts exactly at a top-level comma |
| `TlcParser.SplitItems` | tools/generate_tla_replay_traces.py:20-45 | the character loop returns the stripped pieces between top-level commas, dropping only a blank last one |
| `TlcParser.Parse` | tools/generate_tla_replay_traces.py:48-73 | the recursive parser computes the specified value or failure for every string and terminates on its length |
| `TlcParser.ParseList` | tools/generate_tla_replay_traces.py:58-60 | the set branch: the items in order, or the first failure |
| `TlcParser.ParseDictEntry` | tools/generate_tla_replay_traces.py:65-69 | one entry: key text and value around the first arrow, or the failure |
| `TlcParser.ParseDict` | tools/generate_tla_replay_traces.py:61-70 | the function branch: later entries under one key replace earlier ones |
| `TlcParser.PutExactly` | tools/generate_tla_replay_traces.py:66-69 | assigning a key: it takes the new value, every other key keeps its own, and the keys keep their places, a new one coming last |
| `TlcParser.EscapeTable` | tools/generate_tla_replay_traces.py:56-57 | the one-letter escapes of a quoted string and what they stand for, and no others |
| `TlcParser.HexValue` | tools/generate_tla_replay_traces.py:56-57 | what four hexadecimal digits stand for; a surrogate is refused |
| `TlcParser.KeyTexts` | tools/generate_tla_replay_traces.py:67-68 | the text of a boolean, number or string as a key; sets and functions are not keys |
| `TlcSyntax.TextStays` | tools/generate_tla_replay_traces.py:26-42 | scanning the text of any well-formed value returns to the state it started in without a cut, whatever commas, braces, arrows or escapes it contains |
| `TlcSyntax.SplitRecoversItems` | tools/generate_tla_replay_traces.py:20-45 | splitting a printed element list, whatever its layout, gives back exactly the printed elements |
| `TlcSyntax.SplitRecoversEntries` | tools/generate_tla_replay_traces.py:20-45 | the same for the entries of a function |
| `TlcSyntax.ItemsStrip` | tools/generate_tla_replay_traces.py:59-62 | stripping the inner text first does not change its items |
| `TlcSyntax.JsonRecoversGlyphs` | tools/generate_tla_replay_traces.py:56-57 | reading a quoted string back undoes every spelling of every character, escapes included |
| `TlcSyntax.ParseText` | tools/generate_tla_replay_traces.py:48-73 | every well-formed syntax tree parses to its meaning |
| `TlcSyntax.ParseRecoversMeaning` | tools/generate_tla_replay_traces.py:48-73 | for every well-formed value in every layout and with every spelling of its strings, the parser returns the meaning |
| `TlcLanguage.DecodedAreGlyphs` | tools/generate_tla_replay_traces.py:56-57 | a quoted string that decodes is a spelling of its characters, raw or escaped, up to the closing quote |
| `TlcLanguage.PiecesJoin` | tools/generate_tla_replay_traces.py:20-45 | the pieces of the splitter, joined by commas, are the text |
| `TlcLanguage.AcceptedIsText` | tools/generate_tla_replay_traces.py:48-73 | every accepted text is the text, between blanks, of a tree of the syntax, and its value is what the tree means |
| `TlcLanguage.AcceptedExactly` | tools/generate_tla_replay_traces.py:48-73 | a text is accepted with a value exactly when it is the text of such a tree: nothing else parses |
| `TlcPrinter.DecimalRoundTrip` | tools/generate_tla_replay_traces.py:54-55 | decimal digits read back to the number they were printed from |
| `TlcPrinter.CanonMeans` | tools/generate_tla_replay_traces.py:48-73 | every printable value has a canonical syntax tree with that meaning |
| `TlcPrinter.PrintParseRoundTrip` | tools/generate_tla_replay_traces.py:48-73 | printing any printable value and parsing the text returns the value |
| `FeeSchedule.CheckSchedule` | contracts/ledgerlens-score/src/rent_relay_credits.rs:742-757 | accepts exactly the schedules of at most ten tiers with fees between 0 and 10^9 and strictly increasing volumes |
| `FeeSchedule.ComputeGateFee` | contracts/ledgerlens-score/src/fee_schedule.rs:33-46 | on an accepted schedule the early-exit scan returns the fee of the last tier reached, 0 if none |
| `FeeSchedule.FeeBounds` | contracts/ledgerlens-score/src/fee_schedule.rs:33-46 | every fee lies between 0 and the hard ceiling |
| `FeeSchedule.FeeAtSaturates` | contracts/ledgerlens-score/src/storage.rs:3894-3905 | a saturated 32-bit call counter is priced like the true count |
| `FeeSchedule.FeesByTier` | contracts/ledgerlens-score/src/fee_schedule.rs:33-46 | the fees of n successive calls from volume v are the sum over tiers of the fee times the overlap of the range of the tier with [v, v+n) |
| `GateCredits.DepositKeeps` | contracts/ledgerlens-score/src/rent_relay_credits.rs:591-606 | a deposit raises one balance and the liability by the amount, never saturates, keeps liability equal to the sum of balances, and lowers the free holdings of no token |
| `GateCredits.DepositAcceptedExactly` | contracts/ledgerlens-score/src/rent_relay_credits.rs:591-606 | exactly the positive deposits of others than the contract that the configured token lets through are accepted; the reply is the old balance plus the amount, and the new one |
| `GateCredits.RequestKeeps` | contracts/ledgerlens-score/src/rent_relay_credits.rs:617-632 | a request changes no balance, no counter and no token holding |
| `GateCredits.RequestAcceptedExactly` | contracts/ledgerlens-score/src/rent_relay_credits.rs:617-632 | a request is accepted exactly when the amount is positive and within the balance, pending request or not; it stores the amount with the time plus the delay, saturated at the 64-bit maximum, and nothing else |
| `GateCredits.WithdrawKeeps` | contracts/ledgerlens-score/src/rent_relay_credits.rs:647-669 | a completed withdrawal lowers the balance of its owner alone and pays out exactly that amount; the clamp of the liability counter never fires |
| `GateCredits.RevenueKeeps` | contracts/ledgerlens-score/src/rent_relay_credits.rs:683-705 | governance takes revenue only: no balance and no liability changes |
| `GateCredits.RevenueAcceptedExactly` | contracts/ledgerlens-score/src/rent_relay_credits.rs:683-705 | exactly the positive amounts within the revenue are paid, to any recipient that can hold them; each refusal has its error |
| `GateCredits.MeterKeeps` | contracts/ledgerlens-score/src/rent_relay_credits.rs:860-889 | a metered query moves its fee from one balance and the liability to the revenue and moves no token |
| `GateCredits.MeterCharges` | contracts/ledgerlens-score/src/rent_relay_credits.rs:860-889 | an unexpired exemption costs nothing and is not counted; otherwise the fee is that of the calls counted in the recorded window, or of volume 0 without a record or once its length has run, and the new record is one call more there or one call from this ledger on; only a balance below the fee refuses |
| `GateCredits.DueWithdrawalSucceeds` | contracts/ledgerlens-score/src/rent_relay_credits.rs:634-669 | a due request within the balance is always paid in full; no governance state can make it fail |
| `GateCredits.WithdrawRefusals` | contracts/ledgerlens-score/src/rent_relay_credits.rs:647-656 | without a request and before its time a withdrawal is refused with its own error, and a refusal changes nothing |
| `GateCredits.DueRequestClearedExactly` | contracts/ledgerlens-score/src/rent_relay_credits.rs:643-669 | a due request is cleared exactly when the balance still covers it and the depositor can hold the amount; otherwise the call fails and changes nothing |
| `GateCredits.ShortWithdrawalKeepsRequest` | contracts/ledgerlens-score/src/rent_relay_credits.rs:643-658 | after the balance has dropped below a request, to zero or not, withdrawing changes nothing, and exactly the amounts within the balance can be requested instead |
| `RentQueue.TrackKeeps` | contracts/ledgerlens-score/src/storage.rs:183-229 | touching a live entry keeps the index duplicate-free, bounded and ordered least recently touched first |
| `RentQueue.WriteKeeps` | contracts/ledgerlens-score/src/storage.rs:79-94 | writing a score keeps the same invariant |
| `RentQueue.WriteRecords` | contracts/ledgerlens-score/src/storage.rs:79-94 | a stored score is live, touched now and last in the index, unless the index is full and does not hold it; all other entries keep their touch and order |
| `RentQueue.TrackRecords` | contracts/ledgerlens-score/src/storage.rs:183-229 | the same for a renewal, which makes nothing live |
| `RentQueue.ClearKeeps` | contracts/ledgerlens-score/src/storage.rs:1151-1156 | clearing a score keeps it too |
| `RentQueue.ClearRecords` | contracts/ledgerlens-score/src/storage.rs:1151-1156 | a cleared score is neither live nor tracked; its touch marker and all other entries stay |
| `RentQueue.TickKeeps` | contracts/ledgerlens-score/src/storage.rs:255-261 | and so does the passing of ledgers |
| `RentQueue.DueIsPrefix` | contracts/ledgerlens-score/src/storage.rs:196-198 | on such an index the due entries are exactly a prefix |
| `RentQueue.DueExactly` | contracts/ledgerlens-score/src/storage.rs:287-308 | an entry is due exactly when it is tracked and its last touch is at least the threshold ago |
| `RentQueue.DueDescends` | contracts/ledgerlens-score/src/storage.rs:272-286 | and come in descending order of elapsed time |
| `RentQueue.GetExpiringEntries` | contracts/ledgerlens-score/src/storage.rs:287-308 | the early-exit scan returns the first due entries of the whole index, up to the limit |
| `RentQueue.SelectLongest` | contracts/ledgerlens-score/src/storage.rs:336-344 | the inner loop finds the first longest-elapsed entry |
| `RentQueue.SelectInOrder` | contracts/ledgerlens-score/src/storage.rs:333-348 | repeated selection from a descending list takes its front |
| `RentQueue.FullScanBaseline` | contracts/ledgerlens-score/src/storage.rs:316-350 | the full scan with selection sort returns the same entries as the early-exit scan on every sound index |
| `KeeperPool.RenewAllRenews` | contracts/ledgerlens-score/src/rent_relay_credits.rs:194-206 | the batch loop keeps the index sound, moves no touch back, and every renewed entry is live, was tracked and is touched now |
| `KeeperPool.RequestedIsProduct` | contracts/ledgerlens-score/src/rent_relay_credits.rs:190-206 | the saturating accumulation of rewards never saturates: it is renewals times the reward per entry |
| `KeeperPool.RewardIsLargest` | contracts/ledgerlens-score/src/storage.rs:3640-3650 | the payment is the largest amount that the renewals, the pool and a non-zero cap allow |
| `KeeperPool.ExtendPays` | contracts/ledgerlens-score/src/rent_relay_credits.rs:175-226 | a call pays at most the reward per renewed entry and at most the pool, leaves the pool lower by exactly the payment and the ledger spend within a cap that is in force, counts the payment under this ledger alone, refuses more than a hundred entries, and never fails for lack of pool or token |
| `KeeperPool.ExtendReachesKeeper` | contracts/ledgerlens-score/src/rent_relay_credits.rs:208-221 | the payment is that reward and reaches the keeper |
| `KeeperPool.ExtendMovesReward` | contracts/ledgerlens-score/src/rent_relay_credits.rs:208-221 | the payment is the only token movement of the call |
| `KeeperPool.ExtendKeeps` | contracts/ledgerlens-score/src/rent_relay_credits.rs:175-226 | a call keeps the pool covered by the holdings and the index sound; a failed call changes nothing |
| `KeeperPool.FundKeeps` | contracts/ledgerlens-score/src/rent_relay_credits.rs:82-104 | funding adds exactly the amount, without saturating |
| `KeeperPool.FundExactly` | contracts/ledgerlens-score/src/rent_relay_credits.rs:82-104 | exactly the funding that the token lets through is accepted, and the reply is the new pool |
| `KeeperPool.RenewedWasDue` | contracts/ledgerlens-score/src/storage.rs:3615-3620 | an entry is renewed only when at least threshold minus window ledgers have passed since its last touch |
| `KeeperPool.DueIsRenewed` | contracts/ledgerlens-score/src/rent_relay_credits.rs:194-206 | every listed entry that is live, has a touch marker and was last touched at least threshold minus window ledgers ago is renewed |
| `KeeperPool.ExtendRenewsExactly` | contracts/ledgerlens-score/src/rent_relay_credits.rs:194-206 | a call that goes through renews exactly those; they are touched now, all others keep their touch, nothing becomes live or dead and tracked entries stay tracked |
| `KeeperPool.NoRepeatInBatch` | contracts/ledgerlens-score/src/storage.rs:3605-3614 | with a window below the threshold no entry is renewed twice in one call |
| `KeeperPool.RepeatAtFullWindow` | contracts/ledgerlens-score/src/rent_relay_credits.rs:125-127 | with the window at the threshold, which is accepted, a live tracked entry listed twice is renewed twice |
| `KeeperPool.RewardSplits` | contracts/ledgerlens-score/src/storage.rs:3640-3658 | paying for m and then for n renewals in one ledger pays what m+n renewals pay |
| `KeeperPool.SplitCallsAddUp` | contracts/ledgerlens-score/src/rent_relay_credits.rs:175-226 | splitting a batch over two calls in one ledger: replies and renewed entries add up to those of the single call, and contract and token accounts end up the same |
| `RelayPreimage.BuildPreimage` | contracts/ledgerlens-score/src/rent_relay_credits.rs:461-505 | the buffer filled field by field is the concatenation of the fourteen fixed-width fields |
| `RelayPreimage.FieldAt` | contracts/ledgerlens-score/src/rent_relay_credits.rs:461-505 | each field occupies the bytes between its fixed offset and the next |
| `RelayPreimage.SubmissionLayout` | contracts/ledgerlens-score/src/rent_relay_credits.rs:461-495 | 223 bytes: wallet at 0, NUL-padded pair at 56, score at 65, the two flags at 69 and 70, timestamp at 71, confidence at 79, model version at 83, integers least significant byte first |
| `RelayPreimage.BindingLayout` | contracts/ledgerlens-score/src/rent_relay_credits.rs:489-505 | contract at 87, network at 143, contract id at 175, version at 207, nonce at 211, expiry ledger at 219 |
| `RelayPreimage.JoinInjective` | contracts/ledgerlens-score/src/rent_relay_credits.rs:473-502 | parts of equal widths can be read back from their concatenation |
| `RelayPreimage.PadPairInjective` | contracts/ledgerlens-score/src/rent_relay_credits.rs:473-487 | padding NUL-free pairs of at most nine bytes with zeros loses nothing |
| `RelayPreimage.PreimageInjective` | contracts/ledgerlens-score/src/rent_relay_credits.rs:461-505 | equal preimages bind the same submission, deployment, nonce and expiry ledger |
| `AttestedRelay.AcceptedExactly` | contracts/ledgerlens-score/src/rent_relay_credits.rs:353-447 | for any relayer who can hold the tip, exactly the attestations that pass every guard, are bound, signed, unused and in turn are accepted, whatever the state of the tip pool |
| `AttestedRelay.RelayerIsIrrelevant` | contracts/ledgerlens-score/src/rent_relay_credits.rs:309-320 | score, nonce, mark, tip pool, rent queue and reply do not depend on who relays |
| `AttestedRelay.TurnedAwayExactly` | contracts/ledgerlens-score/src/rent_relay_credits.rs:356-378 | which error a stopped contract or pair, an oversized pair, a closed epoch, another version or an expired attestation gets, and only these get it |
| `AttestedRelay.JudgedExactly` | contracts/ledgerlens-score/src/rent_relay_credits.rs:380-428 | past the guards: a marked digest is a duplicate whatever its signature and nonce; another digest, a bad signature or a wrong nonce is invalid; only what the host does not admit is rejected |
| `AttestedRelay.RelayStores` | contracts/ledgerlens-score/src/storage.rs:79-94 | an accepted relay leaves its entry live, touched now and last in the rent queue, unless the queue is full and does not hold it |
| `AttestedRelay.TipIsCounted` | contracts/ledgerlens-score/src/storage.rs:3724-3748 | under a cap the tip is added to the recorded window, or starts a new one at this ledger when there is none or its length has run; without a cap nothing is recorded |
| `AttestedRelay.RelayMovesTip` | contracts/ledgerlens-score/src/rent_relay_credits.rs:431-445 | the tip is the only token movement of a relay |
| `AttestedRelay.TipWithinCap` | contracts/ledgerlens-score/src/storage.rs:3724-3748 | a tip never takes the spend of its window beyond a non-zero cap |
| `AttestedRelay.TipIsLargest` | contracts/ledgerlens-score/src/storage.rs:3724-3748 | the tip is the largest amount that its setting, the pool and a non-zero cap allow |
| `AttestedRelay.TipReachesRelayer` | contracts/ledgerlens-score/src/rent_relay_credits.rs:431-445 | what leaves the tip pool on acceptance is the tip, and it reaches the relayer |
| `AttestedRelay.RelayKeeps` | contracts/ledgerlens-score/src/rent_relay_credits.rs:340-448 | a relay keeps the tip pool covered and non-negative; a failed one changes nothing |
| `AttestedRelay.SubmitKeeps` | contracts/ledgerlens-score/src/lib.rs:603-632 | so does a direct submission, which consumes a nonce of the same service exactly when it carries an attestation |
| `AttestedRelay.SubmitAcceptedExactly` | contracts/ledgerlens-score/src/lib.rs:603-632 | a direct submission is accepted exactly when it is admitted and its nonce, if any, is the next one; it stores the score, takes the nonce, records the entry and touches nothing else |
| `AttestedRelay.FundTipsKeeps` | contracts/ledgerlens-score/src/rent_relay_credits.rs:259-279 | so does funding, which never saturates |
| `AttestedRelay.FundTipsExactly` | contracts/ledgerlens-score/src/rent_relay_credits.rs:259-279 | exactly the funding that the token lets through is accepted, and it all goes to the pool |
| `ContractSpec.StepGood` | contracts/ledgerlens-score/src/rent_relay_credits.rs:523-538 | every step of every entry point, with several ledgers possibly sharing one token, keeps liability equal to the sum of balances, every pool and balance non-negative and every token covered, lowers the free holdings of no token, and changes nothing when it fails |
| `ContractRuns.InitialIsGood` | contracts/ledgerlens-score/src/rent_relay_credits.rs:523-530 | a freshly deployed contract satisfies the invariant |
| `ContractRuns.RunGood` | contracts/ledgerlens-score/src/rent_relay_credits.rs:523-538 | over every run the invariant holds and the holdings beyond all debts never decrease |
| `ContractRuns.CreditTokenSwitch` | contracts/ledgerlens-score/src/rent_relay_credits.rs:540-558 | changing the credit token keeps the contract solvent exactly when its free holdings of the new token cover what the credit ledger owes |
| `ContractRuns.NeedsInitialization` | contracts/ledgerlens-score/src/rent_relay_credits.rs:180-185 | without an administrator exactly the calls of depositors go through; with one no call is refused for the lack of it |
| `ContractRuns.StepMovesBook` | contracts/ledgerlens-score/src/rent_relay_credits.rs:591-705 | each call moves each balance, the liability, the revenue and the keeper pool by exactly what the call and its reply say |
| `ContractRuns.BooksBalance` | contracts/ledgerlens-score/src/rent_relay_credits.rs:591-705 | over every run each balance is deposits minus withdrawals minus fees, the revenue is fees minus revenue withdrawals, and the pool is funding minus payouts |
| `ContractRuns.OnlyOwnerLowersBalance` | contracts/ledgerlens-score/src/rent_relay_credits.rs:532-538 | only the depositor lowers a balance, by withdrawing or by a metered query; no governance step does |
| `ContractRuns.LedgerPayoutWithinCap` | contracts/ledgerlens-score/src/rent_relay_credits.rs:45-61 | within one ledger and under one cap, all keeper calls together are paid at most what the cap leaves |
| `ContractRuns.RenewalsAreApart` | contracts/ledgerlens-score/src/storage.rs:3605-3620 | two renewals of one entry, whatever happens in between, are at least threshold minus the current window ledgers apart |
| `CreditRuns.WithdrawalTakesDelay` | contracts/ledgerlens-score/src/rent_relay_credits.rs:608-669 | over every run between a request and the withdrawal that completes it, at least the delay in force at the request passes, and exactly the requested amount is paid |
| `CreditRuns.RequestPaysOnce` | contracts/ledgerlens-score/src/rent_relay_credits.rs:647-669 | over every run without a new request, a second withdrawal fails |
| `CreditRuns.RunKeepsCredit` | contracts/ledgerlens-score/src/rent_relay_credits.rs:532-538 | over every run without calls of a depositor, its request stays and its balance does not fall |
| `CreditRuns.NobodyBlocksWithdrawal` | contracts/ledgerlens-score/src/rent_relay_credits.rs:532-538 | whatever anyone else does after a request, pausing and fee changes included, the depositor is paid in full once the delay has passed |
| `CreditRuns.AnyCreditIsPaid` | contracts/ledgerlens-score/src/rent_relay_credits.rs:617-669 | from every good state any amount within the balance can be requested and, whatever others do meanwhile, is paid out in full once the delay has passed |
| `CreditRuns.WaitingIsEnough` | contracts/ledgerlens-score/src/rent_relay_credits.rs:617-669 | in particular the depositor alone gets it by requesting, waiting for the delay and withdrawing |
| `MeterRuns.RunIsMetered` | contracts/ledgerlens-score/src/rent_relay_credits.rs:860-889 | over every run a billed query inside the recorded window is priced by its count and counted there, one without a window is priced at volume 0 and leaves a record of one call from its ledger on, and no other step changes the record or charges the consumer |
| `MeterRuns.WindowRevenueByTier` | contracts/ledgerlens-score/src/rent_relay_credits.rs:866-885 | over every run, with any calls in between and at any times, the n queries billed in one window from volume v on take exactly the sum over tiers of the fee times the overlap of the range of the tier with [v, v+n) |
| `MeterRuns.NewWindowRevenueByTier` | contracts/ledgerlens-score/src/storage.rs:3888-3905 | when the first of them finds no window, all are priced from volume 0 |
| `MeterRuns.FeesMoveTheBooks` | contracts/ledgerlens-score/src/rent_relay_credits.rs:881-885 | those fees are what the balance of the consumer loses and the revenue gains |
| `TipRuns.TipBookBalances` | contracts/ledgerlens-score/src/storage.rs:3687-3700 | over every run the tip pool is what it was plus the funding minus the tips |
| `TipRuns.WindowTipsWithinCap` | contracts/ledgerlens-score/src/storage.rs:3724-3748 | over every run, the tips paid in one window under one non-zero cap are counted exactly and are together at most what the cap leaves |
| `CallRuns.DepositAccepted` | contracts/ledgerlens-score/src/rent_relay_credits.rs:591-606 | when a deposit goes through: administrator or not, exactly when the token lets the contract take a positive amount from another |
| `CallRuns.RequestAccepted` | contracts/ledgerlens-score/src/rent_relay_credits.rs:617-632 | when a request goes through: exactly for positive amounts within the balance |
| `CallRuns.WithdrawalAccepted` | contracts/ledgerlens-score/src/rent_relay_credits.rs:647-669 | when a withdrawal is paid: exactly when a due request is within the balance and its owner can hold the amount |
| `CallRuns.RevenueAccepted` | contracts/ledgerlens-score/src/rent_relay_credits.rs:683-705 | when revenue is paid out: exactly for positive amounts within it and a recipient that can hold them |
| `CallRuns.QueryAccepted` | contracts/ledgerlens-score/src/rent_relay_credits.rs:860-889 | when a metered query goes through: exactly when the balance covers the fee of the calls counted in the window, or the consumer is exempt |
| `CallRuns.KeeperFundingAccepted` | contracts/ledgerlens-score/src/rent_relay_credits.rs:82-104 | when the reward pool is funded: exactly when the token lets the contract take the amount from the administrator |
| `CallRuns.RenewalAccepted` | contracts/ledgerlens-score/src/rent_relay_credits.rs:175-226 | when a keeper that can be paid gets through: exactly with at most a hundred entries |
| `CallRuns.TipFundingAccepted` | contracts/ledgerlens-score/src/rent_relay_credits.rs:259-279 | when the tip pool is funded |
| `CallRuns.RelayAccepted` | contracts/ledgerlens-score/src/rent_relay_credits.rs:340-448 | when a relay by anyone that can hold the tip is accepted: exactly when the attestation is acceptable |
| `CallRuns.SubmissionAccepted` | contracts/ledgerlens-score/src/lib.rs:603-632 | when a direct submission is accepted |
| `RentRuns.StepIsFollowed` | contracts/ledgerlens-score/src/storage.rs:79-94 | every step means for every entry: stored is live, touched now and tracked if there is room; cleared is neither live nor tracked; renewed is touched now and stays tracked; anything else leaves it alone |
| `RentRuns.StoredEntryComesDue` | contracts/ledgerlens-score/src/storage.rs:255-308 | over every run that does not store, clear or renew it again, a stored entry that found room is listed by the expiry scan exactly from the threshold on |
| `RentRuns.DueEntryIsRenewed` | contracts/ledgerlens-score/src/rent_relay_credits.rs:175-226 | a call listing it by any keeper that can be paid goes through, renews it, and it is not due afterwards |
| `RentRuns.RenewedExactly` | contracts/ledgerlens-score/src/rent_relay_credits.rs:194-206 | what a keeper call of the contract renews, in terms of touches and live scores |
| `RentRuns.StepScores` | contracts/ledgerlens-score/src/storage.rs:79-94 | every step stores, clears or keeps the score of every entry as its call says |
| `RentRuns.LastScoreStands` | contracts/ledgerlens-score/src/storage.rs:79-94 | over every run the contract holds the last score submitted and not cleared |
| `SettingRuns.InitialSettings` | contracts/ledgerlens-score/src/rent_relay_credits.rs:523-530 | how a fresh contract is configured |
| `SettingRuns.StepConfigures` | contracts/ledgerlens-score/src/rent_relay_credits.rs:115-135 | every setter of an initialised contract is accepted exactly for its valid values and stores exactly them; no other call changes any setting |
| `SettingRuns.OnlyGovernanceConfigures` | contracts/ledgerlens-score/src/rent_relay_credits.rs:532-538 | over every run the configuration is the one its setters alone would have left, whatever users do in between |
| `SettingRuns.SettingsLast` | contracts/ledgerlens-score/src/rent_relay_credits.rs:532-538 | over every run without setters it stays |
| `TokenRuns.StepMoves` | contracts/ledgerlens-score/src/rent_relay_credits.rs:591-705 | every step moves exactly the tokens its call names, in the token of its own ledger, between the contract and whoever the call names |
| `TokenRuns.TokensBalance` | contracts/ledgerlens-score/src/rent_relay_credits.rs:523-538 | over every run each holding of each token is what it was plus what these movements brought and took |
| `TokenRuns.TokensAreConserved` | contracts/ledgerlens-score/src/rent_relay_credits.rs:523-538 | no run makes or loses tokens within a group that includes everyone they move between |
| `ContractRuns.TraceIsRun` | contracts/ledgerlens-score/src/rent_relay_credits.rs:523-530 | the steps of every admissible sequence of calls form a run |
| `RelayRuns.EffectOfStep` | contracts/ledgerlens-score/src/rent_relay_credits.rs:396-414 | every step of the contract advances a nonce or adds a mark only as an accepted relay or direct submission does |
| `RelayRuns.ConsumedAreConsecutive` | contracts/ledgerlens-score/src/rent_relay_credits.rs:404-414 | over every run the nonces consumed for a service are exactly the consecutive numbers between its first and last nonce |
| `RelayRuns.AcceptedUnderOneService` | contracts/ledgerlens-score/src/rent_relay_credits.rs:404-414 | while the service stays the same, the nonces of accepted relays strictly increase |
| `RelayRuns.AcceptedAreBound` | contracts/ledgerlens-score/src/rent_relay_credits.rs:380-394 | every accepted relay carries the digest of its own preimage |
| `RelayRuns.OnceUnderOneService` | contracts/ledgerlens-score/src/rent_relay_credits.rs:404-414 | the nonce check alone: while the service stays the same no digest is accepted twice, even if marks are lost at any moment, unless the hash collides on the two preimages |
| `RelayRuns.OnceWhileMarked` | contracts/ledgerlens-score/src/rent_relay_credits.rs:396-413 | the mark alone: while no mark is lost no digest is accepted twice, whatever services, keys and relayers are involved |
| `RelayRuns.AcceptancesAreSpaced` | contracts/ledgerlens-score/src/storage.rs:3666-3673 | over every run, with marks lost after their lifetime, two acceptances of one digest are more than 777600 ledgers apart |
| `RelayRuns.NeverAgainWithinLifetime` | contracts/ledgerlens-score/src/storage.rs:3666-3673 | over every run, with any services, keys and relayers, an attestation that expires within the lifetime of the mark it leaves is never accepted again |
| `RelayRuns.SecondNeedsLateExpiry` | contracts/ledgerlens-score/src/rent_relay_credits.rs:396-414 | whatever happens in between, a second acceptance needs an expiry beyond the lifetime of the first mark |
| `RelayRuns.LateExpiryAllowsSecond` | contracts/ledgerlens-score/src/rent_relay_credits.rs:396-414 | with such an expiry, the mark lost once its lifetime is over and a new service at the same nonce, the attestation is accepted again |
| `RelayRuns.AcceptedAgainExactly` | contracts/ledgerlens-score/src/rent_relay_credits.rs:396-414 | an accepted attestation can be accepted again after some calls if and only if it expires later than the mark it left |
| `RelayRuns.LandingOrderIsIrrelevant` | contracts/ledgerlens-score/src/rent_relay_credits.rs:309-320 | two relayers racing with one attestation leave the same scores, nonces, marks, tip pool and rent queue whichever lands first |
| `ScoreContract.Contract.Pay` | contracts/ledgerlens-score/src/rent_relay_credits.rs:597-601 | a transfer either moves the amount or reports that it trapped |
| `ScoreContract.Contract.DebitBalance` | contracts/ledgerlens-score/src/storage.rs:3765-3791 | fails exactly when the balance is short; a balance of zero is stored as no entry |
| `ScoreContract.Contract.AdvanceVolume` | contracts/ledgerlens-score/src/storage.rs:3894-3905 | inside the recorded window counts the call there and returns the count before it; without one, or once its length has run, starts a record of one call at this ledger and returns 0 |
| `ScoreContract.Contract.DepositGateCredits` | contracts/ledgerlens-score/src/rent_relay_credits.rs:591-606 | state and reply are the specified step; a failed call is rolled back |
| `ScoreContract.Contract.WithdrawGateCreditsRequest` | contracts/ledgerlens-score/src/rent_relay_credits.rs:617-632 | state and reply are the specified step |
| `ScoreContract.Contract.WithdrawGateCredits` | contracts/ledgerlens-score/src/rent_relay_credits.rs:647-669 | writes in source order, request first; state and reply after rollback are the specified step |
| `ScoreContract.Contract.WithdrawGateCreditRevenue` | contracts/ledgerlens-score/src/rent_relay_credits.rs:683-705 | state and reply are the specified step |
| `ScoreContract.Contract.QueryRiskGateMetered` | contracts/ledgerlens-score/src/rent_relay_credits.rs:860-889 | fee, window and books are the specified step, and the gate is asked exactly when the fee has been settled |
| `ScoreContract.Contract.SetFeeTierSchedule` | contracts/ledgerlens-score/src/rent_relay_credits.rs:734-762 | stores a schedule exactly when it is valid |
| `ScoreContract.Contract.RenewEntries` | contracts/ledgerlens-score/src/rent_relay_credits.rs:190-206 | the loop renews the specified entries in order and adds up the specified reward |
| `ScoreContract.Contract.RewardPayable` | contracts/ledgerlens-score/src/storage.rs:3640-3650 | the reward cut down to the pool and to what a non-zero cap leaves |
| `ScoreContract.Contract.KeeperExtendEntryTtls` | contracts/ledgerlens-score/src/rent_relay_credits.rs:175-226 | state, reply and renewed entries are the specified step |
| `ScoreContract.Contract.FundKeeperRewardPool` | contracts/ledgerlens-score/src/rent_relay_credits.rs:82-104 | state and reply are the specified step |
| `ScoreContract.Contract.SetKeeperRewardParams` | contracts/ledgerlens-score/src/rent_relay_credits.rs:115-135 | stores parameters exactly when they are in range |
| `ScoreContract.Contract.CountTip` | contracts/ledgerlens-score/src/storage.rs:3724-3748 | the payable tip, with the window rolled and the payment counted |
| `ScoreContract.Contract.CheckGuards` | contracts/ledgerlens-score/src/rent_relay_credits.rs:356-378 | the guards in source order and the error each raises |
| `ScoreContract.Contract.RecordSubmission` | contracts/ledgerlens-score/src/rent_relay_credits.rs:411-428 | mark, nonce, score and rent entry, in source order |
| `ScoreContract.Contract.ApplyRelay` | contracts/ledgerlens-score/src/rent_relay_credits.rs:411-447 | the same and the tip, or the error that undoes them |
| `ScoreContract.Contract.RelayAttestedScore` | contracts/ledgerlens-score/src/rent_relay_credits.rs:340-448 | state and reply are the specified step; a failed call is rolled back |
| `ScoreContract.Contract.FundRelayTipPool` | contracts/ledgerlens-score/src/rent_relay_credits.rs:259-279 | state and reply are the specified step |
| `Fingerprints.LessIsStrictTotalOrder` | contracts/ledgerlens-aggregator/src/lib.rs:750-767 | irreflexive, asymmetric, transitive and total |
| `Fingerprints.LessIsLexicographic` | contracts/ledgerlens-aggregator/src/lib.rs:750-767 | it is the lexicographic order of the six fields |
| `Fingerprints.Tally` | contracts/ledgerlens-aggregator/src/lib.rs:777-782 | the inner loop counts the occurrences of a candidate |
| `Fingerprints.SelectCanonical` | contracts/ledgerlens-aggregator/src/lib.rs:769-800 | returns the least fingerprint among those reported most often, with its exact count; nothing and 0 when there are none |
| `Fingerprints.CanonicalIsUnique` | contracts/ledgerlens-aggregator/src/lib.rs:769-800 | that answer depends only on the collection of reports, so every permutation of the shards gives the same result |
| `Fingerprints.CanonicalIsLeast` | contracts/ledgerlens-aggregator/src/lib.rs:769-800 | canonical means: none is reported more often, and of those reported as often its six fields come first in lexicographic order |
| `Fingerprints.MajorityIsCanonical` | contracts/ledgerlens-aggregator/src/lib.rs:769-800 | a fingerprint reported by more than half is the canonical one |
| `Fingerprints.CanonicalSurvivesRemoval` | contracts/ledgerlens-aggregator/src/lib.rs:769-800 | dropping any other report changes neither the canonical fingerprint nor its count |
| `SplitBrain.ProbeExactly` | contracts/ledgerlens-aggregator/src/lib.rs:559-632 | available means marked healthy, no fault in the score call, no stale score and all four configuration reads answered, whose answers are the fingerprint; stale and unhealthy likewise |
| `SplitBrain.DiagnosticsMatchCounts` | contracts/ledgerlens-aggregator/src/lib.rs:549-678 | each counter is the number of diagnostics of its kind, the aligned ones are the quorum, and each diagnostic stands in the place of its shard with its fingerprint |
| `SplitBrain.CountsAddUp` | contracts/ledgerlens-aggregator/src/lib.rs:549-678 | available, stale and unavailable shards add up to the healthy ones; mismatches are available minus quorum count |
| `SplitBrain.StatusMeansMajority` | contracts/ledgerlens-aggregator/src/lib.rs:634-660 | the status is aligned or split exactly when some fingerprint is held by a strict majority of the healthy shards; it is unique and canonical |
| `SplitBrain.AlignedMeansAgreement` | contracts/ledgerlens-aggregator/src/lib.rs:639-660 | aligned means exactly that no available shard disagrees with it |
| `SplitBrain.ReportIsOrderIndependent` | contracts/ledgerlens-aggregator/src/lib.rs:549-678 | permuting the shards permutes the diagnostics and changes nothing else in the report |
| `SplitBrain.QuarantineKeepsQuorum` | contracts/ledgerlens-aggregator/src/lib.rs:549-678 | marking a mismatched shard unhealthy keeps the canonical fingerprint, its count and the quorum, and resolves one mismatch |
| `SplitBrain.QuarantineMismatchedShard` | contracts/ledgerlens-aggregator/src/lib.rs:527-537 | the same for the health switch of the registry |
| `ShardAggregator.Aggregator.constructor` | contracts/ledgerlens-aggregator/src/lib.rs:146-150 | an empty registry |
| `ShardAggregator.Aggregator.Initialize` | contracts/ledgerlens-aggregator/src/lib.rs:151-161 | installs an administrator once |
| `ShardAggregator.Aggregator.IsRegistered` | contracts/ledgerlens-aggregator/src/lib.rs:711-720 | membership in the registry |
| `ShardAggregator.Aggregator.AddShard` | contracts/ledgerlens-aggregator/src/lib.rs:234-262 | each refusal in its order; otherwise the shard is appended and starts healthy; no duplicates, never itself, at most ten |
| `ShardAggregator.Aggregator.RemoveShard` | contracts/ledgerlens-aggregator/src/lib.rs:264-287 | removes exactly that shard, keeps the order of the rest and drops its health and capability records |
| `ShardAggregator.Aggregator.SetShardHealth` | contracts/ledgerlens-aggregator/src/lib.rs:527-537 | sets the health of a registered shard and nothing else |
| `ShardAggregator.Aggregator.QueryRiskGate` | contracts/ledgerlens-aggregator/src/lib.rs:336-368 | true exactly when the pair is bounded, shards exist and every healthy one answers true; a failing call at the first stop is recorded |
| `ShardAggregator.Aggregator.GetScore` | contracts/ledgerlens-aggregator/src/lib.rs:370-409 | the first of the highest scores among the healthy shards that answer, and no score exactly when none does; the last failure is recorded when a score is found and discarded with the failed call otherwise |
| `ShardAggregator.Aggregator.ProbeShard` | contracts/ledgerlens-aggregator/src/lib.rs:559-632 | what one shard contributes to the report |
| `ShardAggregator.Aggregator.ProbeShards` | contracts/ledgerlens-aggregator/src/lib.rs:559-632 | one diagnostic per shard in order, the available fingerprints and the counts of the other outcomes |
| `ShardAggregator.Aggregator.MarkMismatches` | contracts/ledgerlens-aggregator/src/lib.rs:636-650 | marks and counts exactly the available shards that differ from the canonical fingerprint |
| `ShardAggregator.Aggregator.DetectSplitBrain` | contracts/ledgerlens-aggregator/src/lib.rs:549-678 | every counter counts what it is named after, every shard has its diagnostic in its place, and the canonical fingerprint is canonical |
| `ShardAggregator.OpenGateBoundsScores` | README.md:115-116 | with shards that honour the gate contract, an open gate means that every healthy score, the reported maximum included, is below the threshold, and that there is a score exactly when some shard is healthy |
| `ShardAggregator.ScoresExactly` | contracts/ledgerlens-aggregator/src/lib.rs:380-400 | the scores considered are exactly those of the registered healthy shards that answer |
| `ShardAggregator.LastFailingExactly` | contracts/ledgerlens-aggregator/src/lib.rs:396-408 | the failure marker names the last healthy shard without a usable score and its code, or stays as it was |
| `ShardAggregator.AllUnhealthyOpensGate` | contracts/ledgerlens-aggregator/src/lib.rs:347-367 | with every registered shard unhealthy the gate is open and there is no score |
| `ReadMemo.Memo.Get` | contracts/ledgerlens-aggregator/src/optimization.rs:326-340 | a disabled memo answers nothing and counts nothing; an active one returns the first entry under the key and counts a hit or a miss |
| `ReadMemo.Memo.Put` | contracts/ledgerlens-aggregator/src/optimization.rs:343-348 | an active memo appends, a disabled one keeps nothing |
| `ReadMemo.LookupMirrors` | contracts/ledgerlens-aggregator/src/optimization.rs:231-246 | a memo of direct reads answers a key with its direct read, or not at all |
| `ReadMemo.Memo.ReadThrough` | contracts/ledgerlens-aggregator/src/optimization.rs:301-348 | a read through the memo equals the direct read and calls the shard only for a new key |
| `ReadMemo.Memo.Replay` | contracts/ledgerlens-aggregator/src/optimization.rs:301-364 | over every sequence of lookups and reads: reads are the direct reads, a lookup answers exactly for keys that have been read, no key is read twice while active, hits plus misses are the operations, hits are the calls saved plus the lookups answered; a disabled memo passes every read on and answers nothing |
| `ParameterGovernance.GetParameterBounds` | contracts/ledgerlens-score/src/parameter_governance.rs:92-101 | finds the bounds of exactly the six governed keys |
| `ParameterGovernance.ReadU64` | contracts/ledgerlens-score/src/parameter_governance.rs:103-112 | the big-endian value of exactly eight bytes, or the error |
| `ParameterGovernance.ReadU32` | contracts/ledgerlens-score/src/parameter_governance.rs:114-123 | the big-endian value of four bytes at an offset, or the error |
| `ParameterGovernance.ApplyKeepsBounds` | contracts/ledgerlens-score/src/parameter_governance.rs:53-88 | a proposal, accepted or refused, keeps all six parameters in bounds, the decay rate at most one with a non-zero denominator, and the cooldown within the staleness window |
| `ParameterGovernance.AcceptedExactly` | contracts/ledgerlens-score/src/parameter_governance.rs:153-220 | a proposal is accepted exactly when it can be read and the parameters would still be within all bounds, the cross bounds included |
| `ParameterGovernance.AcceptedCrossBounded` | contracts/ledgerlens-score/src/parameter_governance.rs:128-148 | which bytes are accepted for the cooldown and the staleness window |
| `ParameterGovernance.AcceptedRanges` | contracts/ledgerlens-score/src/parameter_governance.rs:194-213 | which for the upgrade delay and the velocity cap |
| `ParameterGovernance.AcceptedDepth` | contracts/ledgerlens-score/src/parameter_governance.rs:167-173 | which for the history depth, longer values included |
| `ParameterGovernance.AcceptedDecayRate` | contracts/ledgerlens-score/src/parameter_governance.rs:174-193 | which for the decay rate: eight bytes, numerator at most a non-zero denominator |
| `ParameterGovernance.RefusedWith` | contracts/ledgerlens-score/src/parameter_governance.rs:153-220 | the error of every refusal: unknown key, unreadable value, or the own error of the parameter |
| `ParameterGovernance.EveryRunInBounds` | contracts/ledgerlens-score/src/parameter_governance.rs:128-268 | so does every run of proposals from the defaults |
| `ParameterGovernance.ChangeKeepsBoundsExactly` | contracts/ledgerlens-score/src/lib.rs:9347-9358 | the own setters of the contract for cooldown and staleness window keep all bounds exactly when the value fits the other parameter |
| `ParameterGovernance.RunInBoundsExactly` | contracts/ledgerlens-score/src/lib.rs:9117-9146 | over every run of proposals and own setters the bounds hold throughout exactly when every own setter is given such a value |
| `ParameterGovernance.OwnSettersBreakBound` | contracts/ledgerlens-score/src/lib.rs:9347-9358 | two accepted calls that leave a cooldown above the staleness window |
| `ParameterGovernance.AcceptedReadsBack` | contracts/ledgerlens-score/src/parameter_governance.rs:271-306 | for every key but the decay rate an accepted value is read back byte for byte; only the history depth accepts a longer value, of which it keeps the first four bytes |
| `ParameterGovernance.DecayRateIsStored` | contracts/ledgerlens-score/src/parameter_governance.rs:242-248 | an accepted decay rate is stored as its two halves, numerator first, byte for byte |
| `ParameterGovernance.OthersStay` | contracts/ledgerlens-score/src/parameter_governance.rs:223-268 | a proposal changes no parameter but its own |
| `ParameterGovernance.ReapplyChangesNothing` | contracts/ledgerlens-score/src/parameter_governance.rs:222-306 | re-applying what is read back is accepted and changes nothing |
| `ParameterGovernance.Store.ValidateCross` | contracts/ledgerlens-score/src/parameter_governance.rs:128-148 | refuses a cooldown above the staleness window and a staleness window below the cooldown |
| `ParameterGovernance.Store.Validate` | contracts/ledgerlens-score/src/parameter_governance.rs:153-220 | accepts or refuses every key and value with the specified error |
| `ParameterGovernance.Store.SetCooldownSecs` | contracts/ledgerlens-score/src/lib.rs:9347-9358 | checks the range of the cooldown alone and stores it |
| `ParameterGovernance.Store.ApplyParameterChange` | contracts/ledgerlens-score/src/parameter_governance.rs:223-268 | stores exactly the specified parameter, or nothing with the specified error |
| `SignerIndex.Signers.UpdateActiveIndex` | contracts/ledgerlens-score/src/governance_helpers.rs:113-134 | after a record changed, the index again lists exactly the signers recorded active, each once |
| `SignerIndex.Signers.RecordChange` | contracts/ledgerlens-score/src/governance_helpers.rs:83-109 | writes the dated and attributed record and keeps index and records in agreement |
| `SignerIndex.Signers.TransitionIfReady` | contracts/ledgerlens-score/src/governance_helpers.rs:140-163 | a pending signer becomes active when and only when the full grace period has passed; index and records stay in agreement |
| `SignerIndex.Signers.ValidateStates` | contracts/ledgerlens-score/src/governance_helpers.rs:14-29 | refuses exactly when some signer has a record that is not active |
| `SignerIndex.Drive` | contracts/ledgerlens-score/src/governance_helpers.rs:83-163 | over every run of changes, checks, new grace periods and waiting, the records are the specified ones and the index agrees with them |
| `SignerIndex.PromotionTakesFullGrace` | contracts/ledgerlens-score/src/governance_helpers.rs:140-163 | over every run in which nobody changes a pending signer directly, the grace period being changed at will, it becomes active only at a check at which the full grace period then in force has passed |
| `ScoreDecay.FloorSlack` | tools/reference-model/ledgerlens_ref.py:34 | the four floor divisions together lose less than two units and gain less than one |
| `ScoreDecay.AtLeastAQuarter` | tools/reference-model/ledgerlens_ref.py:34-35 | the truncated series never falls below a quarter minus two units, so the lower clamp never fires |
| `ScoreDecay.DecayBounds` | tools/reference-model/ledgerlens_ref.py:26-35 | for all ages and rates the factor lies between 0 and SCALE, and is at least SCALE/4 - 2 below the cutoff |
| `ScoreDecay.ScaledAgeRounds` | tools/reference-model/ledgerlens_ref.py:30 | the scaled age is rate times age, rounded down |
| `ScoreDecay.DroppedExactly` | tools/reference-model/ledgerlens_ref.py:31-32 | the factor is 0 exactly when rate times age reaches five |
| `ScoreDecay.DecayBetween` | tools/reference-model/ledgerlens_ref.py:26-35 | below the cutoff the factor is at least one minus rate times age and, up to four decay constants, at most the parabola of the next term plus one unit |
| `ScoreDecay.FullWeightExactly` | tools/reference-model/ledgerlens_ref.py:31-35 | the factor is SCALE exactly at 0 and from 2785294 to the cutoff at 5000000: old scores regain full weight |
| `ScoreDecay.MonotoneBeforeTurn` | tools/reference-model/ledgerlens_ref.py:33-35 | up to 1.59 SCALE the factor never rises by more than two units, and never at all over a thousand units |
| `ScoreDecay.OlderWeighsNoMore` | tools/reference-model/ledgerlens_ref.py:26-35 | the same in terms of ages and rates |
| `WeightedAggregate.Aggregate` | tools/reference-model/ledgerlens_ref.py:38-48 | the accumulation loop returns the truncated weighted average, or fails |
| `WeightedAggregate.EffectiveWeightMeans` | tools/reference-model/ledgerlens_ref.py:42-44 | a pair weighs its configured weight, 1 by default, times its decay factor if it has one, rounded down |
| `WeightedAggregate.UndecayedAverage` | tools/reference-model/ledgerlens_ref.py:38-48 | without decay the result is the truncated quotient of the two sums over the configured weights, and fails exactly when they add up to zero |
| `WeightedAggregate.AverageTruncates` | tools/reference-model/ledgerlens_ref.py:48 | the average is the truncated quotient of the weighted sum and the sum of weights |
| `WeightedAggregate.FailsOnlyWithoutWeight` | tools/reference-model/ledgerlens_ref.py:46-47 | it fails exactly when every effective weight is zero |
| `WeightedAggregate.AverageWithin` | tools/reference-model/ledgerlens_ref.py:38-48 | it lies between the lowest and the highest score that carry weight |
| `WeightedAggregate.OrderIsIrrelevant` | tools/reference-model/ledgerlens_ref.py:42-45 | reordering the pairs changes nothing |
| `WeightedAggregate.ZerosAreIrrelevant` | tools/reference-model/ledgerlens_ref.py:42-45 | dropping pairs of weight zero changes nothing |
| `WeightedAggregate.MonotoneInScores` | tools/reference-model/ledgerlens_ref.py:38-48 | raising one score never lowers it |
| `WeightedAggregate.Reweighting` | docs/score-math.md:413-414 | raising the weight of a pair at or above the average never lowers it, at or below never raises it |
| `WeightedAggregate.DominantPairDecides` | docs/score-math.md:416 | a pair that outweighs all others by more than the largest score decides the average up to truncation |
| `ReferenceModel.SummaryIsOrderIndependent` | tools/reference-model/ledgerlens_ref.py:112-121 | average, count and maximum do not depend on the order of the pairs |
| `ReferenceModel.SummaryBounds` | tools/reference-model/ledgerlens_ref.py:112-121 | the average lies between the lowest and the highest score |
| `ReferenceModel.Model.constructor` | tools/reference-model/ledgerlens_ref.py:57-63 | a new model is empty and consistent |
| `ReferenceModel.Model.Submit` | tools/reference-model/ledgerlens_ref.py:72-83 | stores percentages only; the risk band stays exactly the set of scores at or above the threshold |
| `ReferenceModel.Model.SetFloor` | tools/reference-model/ledgerlens_ref.py:93-97 | a floor is a percentage |
| `ReferenceModel.Model.EffectiveScore` | tools/reference-model/ledgerlens_ref.py:105-110 | the decayed score, never above the stored one |
| `ReferenceModel.Model.RowsMean` | tools/reference-model/ledgerlens_ref.py:112-121 | a pair counts exactly when the wallet has a score of it, with its weight, 1 by default, scaled down by the decay at the age of the score |
| `ReferenceModel.Model.AggregateScore` | tools/reference-model/ledgerlens_ref.py:112-121 | the average, count and maximum over all pairs of the wallet in whatever order; found exactly when some pair weighs anything; the count is the number of pairs, the maximum is attained, average at most maximum at most 100 |
| `ReferenceModel.Model.Gate` | tools/reference-model/ledgerlens_ref.py:123-127 | open exactly for a stored score below both thresholds whose confidence reaches both floors |

## Left out

- Authorization: `require_auth`, the M-of-N administrator check and event publication are not modelled; a call is taken as authorized, and the contract itself never signs as a user.
- Setters that only store a value (tokens, withdrawal delay, fee window, exemptions, service, key, pause switches) are steps of `ContractSpec` and have no method of their own in `ScoreContract`.
- `finalize_score_submission` and the checks of a direct submission are one abstract predicate that may refuse a submission; a score counts as stored at once, so the finality buffer, history, cooldown and velocity cap are not modelled.
- Expiry of stored entries by the host is modelled for the marks of relayed attestations only, which may be lost at any ledger after their lifetime.
- Changing the token of a pool that still owes something is excluded from runs; `ContractRuns.CreditTokenSwitch` states exactly when it is harmless for the credit ledger. Tokens that rebase, freeze or claw back are not modelled.
- The older fee path with its own fee token and accumulated fees.
- ScoreContract.Contract.QueryRiskGateMetered: requires a valid fee schedule, which `ContractRuns.RunGood` shows to hold in every reachable state; the unmetered gate it asks is a parameter.
- RelayRuns.OnceUnderOneService: assumes the field widths of the source for the two attestations and that the hash does not collide on their two preimages.
- RelayRuns.LateExpiryAllowsSecond: assumes that a service at the same nonce is available and that the submission is admitted again; the other direction needs neither.
- TipRuns.WindowTipsWithinCap: assumes the width of the source for the cap and the counter of the window.
- MerkleBatch.ClimbSound: assumes that the hash does not collide on the strings hashed for the tree and for the proof.
- MerkleBatch.BuildMerkleProof: covers trees of depth at most 32, since the flags are a 32-bit word.
- MerkleBatch.NextPow2: covers arguments up to 2^31, beyond which the doubling overflows.
- The commitment preimage of batch entries and the signature over the batch root.
- The remaining queries of the aggregator (aggregate score, contagion depth, watch list, per-shard listing), which repeat the shapes of the two modelled, and the capability probes, whose answers are parameters.
- ReadMemo.Memo.Get: counters are unbounded; the 32-bit overflow after 2^32 lookups is not modelled. The two memo scopes differ only in the lifetime of the object.
- ParameterGovernance.AcceptedReadsBack: leaves out the decay rate, because reading it back copies eight bytes into four and always panics.
- The bounds of the staleness window are parameters, since the constants they name are not defined in the repository; `governance_helpers.rs` is modelled as written although the contract does not include it.
- ParameterGovernance.RunInBoundsExactly: the own setters for history depth, decay rate, upgrade delay and velocity cap, the policy bundle, and the time locks in front of the setters are not modelled.
- Simulation of parameter changes, emergency quorum and audit records.
- SignerIndex.Signers.TransitionIfReady: requires that no record is dated in the future, which non-decreasing time guarantees.
- TestPartition.Partition: durations are reals, so floating-point rounding, infinities and NaN are not modelled; a test is its rank in (binary, name) order; at least one shard is required, as the command line does. Reading the list and report files and printing the filter expression are left out.
- TlcParser.Parse: decimal digits outside ASCII, and keys that are themselves sets or functions, are failures here; so are surrogate escapes in strings. The limit newer Python versions put on the digits of an integer is not modelled.
- `parse_trace` and the rest of the replay generator, which use regular expressions over whole files.
- ReferenceModel.Model.AggregateScore: takes the pairs in any order instead of sorting them; the result is proved not to depend on it.
