# Verified model of the stratum bridge

This project models the parts of the Marigold stratum bridge that decide what happens to a share,
and the algorithms around them, and proves what they promise. Every main result holds for all inputs,
all interleavings or all reachable states; where the code does less than one would expect, there is an
input that shows it and the exact condition under which the expectation holds.

- **Share submission.** `ExpiringQueue`, `DuplicateGuard`, `BlockGuard`: the two bounded, expiring
  guards. `Submission`, `Text`: extranonces, nonces, submit keys. `JobRing`, `WalkBack`, `Targets`:
  the ring of 300 jobs, the loop that walks back through it, the network target.
- **The share pipeline.** `ShareTask`, `SharePipeline`: any number of submissions of any number of
  clients in flight at once; every look at the ring or the pool target, every locked section and every
  answer of the node is a step of its own, and jobs and difficulties change in between. `ShareCounts`,
  `ShareRecords`, `ShareSearch`, `ShareVerdicts`, `ShareProgress`, `ShareGuard`: what all its runs keep of
  counters, worker records, readings, verdicts, steps and duplicates. `NodeSubmission`: the pipeline and the block guard together.
- **Variable difficulty.** `Vardiff`: the rule, the power-of-two clamp and the prepared floor.
  `VardiffConvergence`, `VardiffClamped`: the controller against a steady worker, without and with the clamp.
- **Encodings.** `Bytes`, `CompressedParents`, `HeaderPreimage`: what the pre-PoW hash is taken of.
  `JobStrings`: the job forms sent to miners. `Octets`, `PngCrc`, `PngRemainder`: PNG chunks and their
  cyclic redundancy code (PNG Specification Second Edition, sections 5.3 and 5.5).
- **Concurrency.** `NonceLanes`, `CpuMiner`: the internal miner's nonces and its versioned work slot.
  `LineFraming`, `LineSplits`: lines out of reads of any size. `WriteHalf`, `MessageWire`: writers and
  disconnects of one connection, and what they put on the wire. `GaugeHistory`: the bounded history of the mined-block gauge.

`Collections`, `Powers` and `Wrappers` hold what several of them share.

Objects the source updates in place are classes whose methods are proved against functions on values;
loops are methods proved against such functions; concurrent code is a step machine in which every
access to something shared is one step, and a run is any sequence of enabled steps. Proof of work and
the contents of templates are uninterpreted. Instants are natural numbers with saturating subtraction,
because `now` is read before a lock is taken and may reach it out of order.

Things the model makes visible:

- A share is looked up by the job id modulo 300, so once the ring is full any id from 300 on, issued
  or not, is tried against every stored job (`WalkBack.FullRingTriesEveryJob`).
- A submission for job id zero whose nonce the job it is given does not take ends without a verdict, an
  answer or a count; no other submission does (`ShareVerdicts.AbandonedIff`, `ShareVerdicts.JobZeroAbandons`).
- The mark of a block is kept only for a report of success: the text that is searched for "duplicate"
  never holds it, so a block the node calls a duplicate can be sent again at once
  (`BlockGuard.KeptIffSuccess`, `BlockGuard.RefusedIsSentAgain`).
- The block guard forgets the mark of a block still in flight, and sends it twice, over capacity or after
  the ttl, and a tombstone takes the mark made after it along; the exact conditions are
  `BlockGuard.ForgetsIff`, `BlockGuard.UniqueIff` and `NodeSubmission.OneSubmissionPerBlock`, the runs
  `BlockGuard.EvictionResends` and `BlockGuard.LateCallBreaksExclusion`. Its queue keeps removed hashes and
  has no length bound (`BlockGuard.TombstonesAccumulate`).
- Bridge and node decode compact bits alike exactly for canonical ones (`Targets.DecisionsAgree`).
- The power-of-two clamp keeps difficulties on powers of two exactly when the floor is one, up to the
  epsilon the rule compares with (`Vardiff.ClampNeedsAlignedFloor`, `Vardiff.FloorHolds`).
- With the clamp on, a steady worker whose ideal difficulty lies between 1.25 and 1.5 times a power of
  two is doubled and halved for ever (`VardiffClamped.SettlesIff`).
- The CPU miner's threads never repeat each other's nonces exactly for a power of two of threads
  (`NonceLanes.LanesForever`).
- Lines do not depend on how the stream is cut, with two exceptions: a first read that ends right after
  a bare "SM", and a read that overruns the 64 KiB buffer, which a line within 1024 characters of that
  size may or may not cause (`LineSplits.FramingExact`, `LineSplits.SplitMatters`, `LineSplits.OverrunMatters`).
- A disconnect that comes while a writer has the write half does not shut it down
  (`WriteHalf.ShutIffInSlot`, `WriteHalf.HalfLeftBehind`).
- A write that times out may leave the beginning of its message on the wire, and the retry sends the
  whole message behind it on the same line (`MessageWire.WholeMessagesIff`, `MessageWire.RetryGarbles`).
- Two recordings of one label set at a time may leave the mined-block gauge with a history entry and no
  series (`GaugeHistory.InStepIff`, `GaugeHistory.SeriesLost`).

## Model

| member | source | states |
|---|---|---|
| `ExpiringQueue.RunPrune` | bridge/src/share_handler.rs:258-280 | the two loops of the prune, tombstones and saturating ages included, compute the function the other results are about |
| `ExpiringQueue.ExpiryKeepsLive` | bridge/src/kaspaapi.rs:70-83 | the expiry phase never drops or changes an entry that is not expired, whatever else the queue holds |
| `ExpiringQueue.PruneBounds` | bridge/src/kaspaapi.rs:70-92 | if every map key is somewhere in the queue, pruning keeps it so and ends with at most `max_entries` entries, in spite of tombstones and duplicates |
| `ExpiringQueue.PruneExact` | bridge/src/share_handler.rs:258-280 | pruning keeps queue and map in bijection |
| `ExpiringQueue.PruneKeeps` | bridge/src/share_handler.rs:258-280 | an unexpired entry with fewer than `max_entries` entries behind it survives a prune unchanged |
| `ExpiringQueue.ExpiryStops` | bridge/src/share_handler.rs:259-271 | after the expiry phase the front is an entry that is not expired, or the queue is empty |
| `ExpiringQueue.PruneLeaves` | bridge/src/share_handler.rs:258-280 | a key of an exact queue survives a prune if and only if some key no further back is not expired and fewer than `max_entries` are behind it; so an expired one may linger |
| `ExpiringQueue.LivePruned` | bridge/src/kaspaapi.rs:70-92 | a key of any queue, tombstones and repeats included, survives a prune if and only if some key up to its first place is live and unexpired and the live keys without a place before that number at most `max_entries` |
| `DuplicateGuard.DuplicateSubmitGuard.constructor` | bridge/src/share_handler.rs:254-256 | a new guard is empty and has the given limits |
| `DuplicateGuard.DuplicateSubmitGuard.DoPrune` | bridge/src/share_handler.rs:258-280 | the guard's state becomes the pruned state |
| `DuplicateGuard.DuplicateSubmitGuard.Get` | bridge/src/share_handler.rs:282-285 | prunes, then answers with the recorded outcome of the key, or none |
| `DuplicateGuard.DuplicateSubmitGuard.InsertInFlight` | bridge/src/share_handler.rs:287-294 | prunes, then adds the key in flight at the back unless it is there |
| `DuplicateGuard.DuplicateSubmitGuard.SetOutcome` | bridge/src/share_handler.rs:296-302 | prunes, then sets time and outcome of the key if it is still there |
| `DuplicateGuard.DuplicateSubmitGuard.Submit` | bridge/src/share_handler.rs:571-580 | the locked admission section: an answer for a remembered key, an in-flight entry and no answer otherwise |
| `DuplicateGuard.RunExact` | bridge/src/share_handler.rs:246-303 | in every run, with clock readings in any order, queue and map are in bijection and hold at most `max_entries` + 1 entries |
| `DuplicateGuard.AdmissionDecided` | bridge/src/share_handler.rs:571-580 | a key the guard holds is admitted again if and only if it and all before it have expired or at least `max_entries` are queued behind it |
| `DuplicateGuard.ResubmissionRemembered` | bridge/src/share_handler.rs:246-303 | as long as no operation comes more than the ttl after the key's last touch and fewer than `max_entries` other keys were admitted, a resubmission gets the last outcome recorded in the run |
| `DuplicateGuard.AdmissionsSeparated` | bridge/src/share_handler.rs:246-303 | two admissions of one key are separated by an operation more than the ttl after its last touch or by `max_entries` admissions of other keys |
| `Text.DecimalRoundTrip` | bridge/src/share_handler.rs:569-569 | the decimal text of a job id reads back to it and holds digits only |
| `Text.HexRoundTrip` | bridge/src/client_handler.rs:134-139 | a number that fits is read back from its zero-padded hexadecimal text |
| `Text.HexDigitsAre` | bridge/src/share_handler.rs:557-563 | a character is a digit of the nonce if and only if it is one of the sixteen in either case, and its value is its place among them |
| `Text.ContainsIff` | bridge/src/kaspaapi.rs:431-431 | a text contains a word if and only if it is something, the word and something |
| `Submission.ExtranonceAllocator.constructor` | bridge/src/client_handler.rs:120-148 | the counter starts at zero |
| `Submission.ExtranonceAllocator.Assign` | bridge/src/client_handler.rs:110-148 | one client: none for a Bitmain miner, otherwise the counter in four digits and the counter moved on |
| `Submission.CounterCounts` | bridge/src/client_handler.rs:124-127 | after any mix of clients the counter is the number of takers modulo 65,536 |
| `Submission.ExtranonceRepeats` | bridge/src/client_handler.rs:110-148 | two takers get the same extranonce if and only if the takers from the first to before the second are a multiple of 65,536 |
| `Submission.Unmarked` | bridge/src/share_handler.rs:525-525 | the nonce text is cut at every marker `0x`, into pieces that hold none, and these are put together again |
| `Submission.PaddedNonceValue` | bridge/src/share_handler.rs:528-563 | on the padded path the nonce is the extranonce times 16^12 plus the miner's number, and fails to parse exactly when the miner's part is not hexadecimal |
| `Submission.LanesDisjoint` | bridge/src/share_handler.rs:528-563 | clients among the same 65,536 takers never submit the same nonce on the padded path |
| `Submission.ParsedNonceHasNoSeparator` | bridge/src/share_handler.rs:557-569 | a nonce text that parses holds no bar |
| `Submission.SubmitKeyInjective` | bridge/src/share_handler.rs:557-569 | two submissions that parse have the same key if and only if worker, job id and nonce text agree, bars in the worker name or not |
| `BlockGuard.BlockSubmitGuard.constructor` | bridge/src/kaspaapi.rs:66-68 | a new guard is empty and has the given limits |
| `BlockGuard.BlockSubmitGuard.DoPrune` | bridge/src/kaspaapi.rs:70-92 | the guard's state becomes the pruned state |
| `BlockGuard.BlockSubmitGuard.TryMark` | bridge/src/kaspaapi.rs:94-102 | prunes, and marks the hash at the back exactly when it is not marked |
| `BlockGuard.BlockSubmitGuard.Remove` | bridge/src/kaspaapi.rs:104-107 | prunes and unmarks the hash, leaving its place in the queue |
| `BlockGuard.RunCovered` | bridge/src/kaspaapi.rs:65-108 | in every run of marks, calls and removals every marked hash is in the queue and at most `max_entries` + 1 are marked |
| `BlockGuard.LooksDuplicateIff` | bridge/src/kaspaapi.rs:431-431 | an error text counts as a duplicate if and only if it has one of the two words somewhere in it |
| `BlockGuard.KeptIffSuccess` | bridge/src/kaspaapi.rs:426-463 | the mark is kept if and only if the node reports success; every other report and every error of the client takes it back |
| `BlockGuard.SendsSeparated` | bridge/src/kaspaapi.rs:392-466 | while what the expiry phase leaves fits, two submissions of one hash are separated by giving it up or by a prune more than the ttl after the first |
| `BlockGuard.AtMostOneInFlight` | bridge/src/kaspaapi.rs:392-466 | if what the expiry phase leaves, expired marks behind an unexpired one included, fits and every call finishes within the ttl of its mark, at most one submission per hash is in flight in every reachable state |
| `BlockGuard.AcceptedNotResent` | bridge/src/kaspaapi.rs:392-466 | under the same conditions a hash the node took is sent again only after a prune more than the ttl after its mark |
| `BlockGuard.PruneEvictsFront` | bridge/src/kaspaapi.rs:85-92 | one entry over capacity, a prune drops a front entry that is not expired |
| `BlockGuard.TombstoneStays` | bridge/src/kaspaapi.rs:94-107 | marking and removing a hash leaves it in the queue |
| `BlockGuard.TombstonesAccumulate` | bridge/src/kaspaapi.rs:94-107 | any number of failed attempts at one hash leaves that many places in the queue behind one live mark |
| `BlockGuard.ForgetsIff` | bridge/src/kaspaapi.rs:70-92 | a prune forgets a mark if and only if everything up to the first place of its hash, an old tombstone included, may go, or the live marks without a place before that are over capacity |
| `BlockGuard.UniqueIff` | bridge/src/kaspaapi.rs:392-466 | through a whole run no hash is in flight twice if and only if no operation marks a hash that is in flight and whose mark is gone or forgotten by then |
| `BlockGuard.ExclusiveIff` | bridge/src/kaspaapi.rs:392-466 | through a whole run every call in flight holds its mark and no two are on one hash if and only if no operation forgets the mark of a call that stays in flight |
| `BlockGuard.LateCallBreaksExclusion` | bridge/src/kaspaapi.rs:70-102 | for all limits with room and every hash, a run in which a call outlives the ttl and the hash is sent a second time |
| `BlockGuard.RefusedIsSentAgain` | bridge/src/kaspaapi.rs:426-463 | for every answer but success, a run that sends the same hash again at once |
| `BlockGuard.EvictionResends` | bridge/src/kaspaapi.rs:85-102 | for every capacity, and any hashes one more than it, a timely run that sends the first hash again while its call is in flight |
| `BlockGuard.EvictionBreaksExclusion` | bridge/src/kaspaapi.rs:85-111 | there are such hashes for every capacity, the configured one included, and the run ends with two calls on one hash |
| `Targets.BridgeTargetIs` | bridge/src/hasher.rs:396-425 | for all bits the bridge's target is mantissa times 256 to the power of exponent less three, rounded down |
| `Targets.NodeTargetIs` | math/src/lib.rs:65-80 | for all bits the node's target is that number modulo 2^256, or zero when the sign bit is set and not shifted out, and an exponent past 34 counts as one smaller by 32 |
| `Targets.CanonicalBits` | math/src/lib.rs:65-80 | bits are canonical if and only if the sign bit is clear or shifted out and the number they stand for is below 2^256 |
| `Targets.TargetsAgreeWhenCanonical` | math/src/lib.rs:65-80 | for canonical bits both targets are the same number below 2^256 |
| `Targets.NodeTargetNotMaximal` | math/src/uint.rs:67-84 | no bits make the node accept every 256-bit hash |
| `Targets.DecisionsAgree` | bridge/src/hasher.rs:396-425 | bridge and node take the same decision on every 256-bit hash if and only if the bits are canonical |
| `JobRing.MiningState.constructor` | bridge/src/mining_state.rs:38-51 | an empty ring, for the empty log |
| `JobRing.MiningState.AddJob` | bridge/src/mining_state.rs:54-76 | appends to the log, answers its length as the id, and keeps both maps in step with it |
| `JobRing.MiningState.GetJob` | bridge/src/mining_state.rs:82-88 | the job of the greatest issued id in the slot of the given id, or none |
| `JobRing.MiningState.GetJobIdAtSlot` | bridge/src/mining_state.rs:91-94 | the greatest issued id in the slot, which is the one whose job is stored there, or none |
| `JobRing.LatestCharacterised` | bridge/src/mining_state.rs:54-94 | an id is the latest of its slot if and only if it was issued, lies in the slot and fewer than 300 came after it |
| `JobRing.RecentJobsExact` | bridge/src/mining_state.rs:82-88 | each of the last 300 ids issued is answered with its own job |
| `JobRing.OldJobsReplaced` | bridge/src/mining_state.rs:82-88 | an older id is answered with one of the last 300 jobs, from the same slot |
| `WalkBack.RunWalk` | bridge/src/share_handler.rs:606-1176 | the loop with its flag and slot arithmetic ends, visits consecutive ids downwards, and finds what the recursive walk finds |
| `WalkBack.LowestIsLastRound` | bridge/src/share_handler.rs:1130-1141 | the exit test holds at the lowest id for every nonzero job id, and never for job id zero |
| `WalkBack.RoundsBounded` | bridge/src/share_handler.rs:1125-1156 | there are at most min(id, 300) rounds and no slot is visited twice |
| `WalkBack.WalkDecides` | bridge/src/share_handler.rs:606-1176 | whatever the loop finds from any round on satisfies the declarative search |
| `WalkBack.DecisionUnique` | bridge/src/share_handler.rs:606-1176 | the declarative search has one answer |
| `WalkBack.WalkIsSearch` | bridge/src/share_handler.rs:606-1176 | the walk-back finds something if and only if the search says so: the nearest id, cut at the first empty slot, whose hash meets the network target or beats the pool target |
| `WalkBack.FullRingTriesEveryJob` | bridge/src/share_handler.rs:1125-1156 | on a full ring an id of 300 or more is refused if and only if none of the 300 stored jobs takes the nonce |
| `ShareTask.ProgramOrder` | bridge/src/share_handler.rs:1016-1250 | whatever the verdict, a record is looked up before it is counted on and the worker counted before the total |
| `ShareTask.EndedDidAll` | bridge/src/share_handler.rs:1016-1250 | a submission that has gone through its sections was counted for the worker and in total and its outcome stored, and told to the sink exactly as its verdict asks |
| `SharePipeline.TaskBefore` | bridge/src/share_handler.rs:571-580 | an admitted submission comes from the admission section and is changed by its own steps only |
| `ShareCounts.StepInv` | bridge/src/share_handler.rs:493-1254 | each step keeps the invariant that ties counters, worker records and sink events to what each submission has done |
| `ShareCounts.RunInv` | bridge/src/share_handler.rs:493-1254 | the invariant holds in every state of every interleaving |
| `ShareCounts.Conservation` | bridge/src/share_handler.rs:571-1254 | in every reachable state the admitted submissions are those counted accepted, stale or invalid, those still open and those left by the job-zero error |
| `ShareCounts.RecordsExact` | bridge/src/share_handler.rs:371-394 | in every reachable state each worker record holds, class by class, exactly the submissions counted on it, each of which looked it up last under the name it was created for; and the records of any group of names hold the submissions counted under those names |
| `ShareCounts.OverallNeverAhead` | bridge/src/share_handler.rs:1016-1250 | no overall counter exceeds the sum of that counter over all worker records ever created |
| `ShareCounts.TotalsAgreeAtRest` | bridge/src/share_handler.rs:1178-1250 | with nothing in flight each overall counter equals the sum over all records, pruned ones included, and the number of submissions with that verdict; and so for the records of any group of names |
| `ShareCounts.WorkersAgreeAtRest` | bridge/src/share_handler.rs:371-394 | if every lookup uses the name the submission came with, the records of a worker hold exactly that worker's verdicts |
| `ShareCounts.SinkAtRest` | bridge/src/share_handler.rs:932-1250 | with nothing in flight the sink has heard of a share once exactly if it was accepted, of a block once exactly if the node took it, both under the job the walk ended on, and every block taken is an accepted share |
| `ShareRecords.CountersByVerdict` | bridge/src/share_handler.rs:1016-1250 | in every reachable state the accepted, stale and invalid counters, overall and of each record, are the numbers of submissions counted there that were accepted, that were stale, and that were of low difficulty or bad |
| `ShareRecords.CountersAtRest` | bridge/src/share_handler.rs:1178-1250 | with nothing in flight the overall counters are the numbers of all submissions with those verdicts |
| `ShareRecords.RecordStays` | bridge/src/share_handler.rs:371-394 | as long as no prune drops a name it leads to the same record |
| `ShareRecords.Authorized` | bridge/src/client_handler.rs:90-106 | a worker that was authorized has a record until a prune drops its name |
| `ShareRecords.MadeOnce` | bridge/src/share_handler.rs:371-394 | as long as no prune drops a name at most one record is made for it, and none if it leads to one already |
| `ShareRecords.LiveRecordHolds` | bridge/src/share_handler.rs:371-394 | so the record a name leads to holds every verdict counted under the name on any record made since it last led to none |
| `ShareSearch.RunInv` | bridge/src/share_handler.rs:606-1176 | in every interleaving each submission is where the rounds so far put it, and everything it read was answered by its client's ring and target at some moment since it got its job, lower ids no earlier |
| `ShareSearch.VerdictExplained` | bridge/src/share_handler.rs:606-1254 | whatever jobs and difficulties came in between, a submission found what the walk and the declarative search give on any readings that hold what it read, and its verdict follows from that |
| `ShareSearch.ReadingsAgree` | bridge/src/share_handler.rs:606-1176 | there always are such readings |
| `ShareVerdicts.ArrivalOf` | bridge/src/share_handler.rs:493-569 | every submission was brought in by one earlier step, with its client's ring and targets as they were then |
| `ShareVerdicts.OncePerArrival` | bridge/src/share_handler.rs:571-580 | a submission goes through the admission section once: between two passes of one there is another arrival |
| `ShareVerdicts.AnswerMoment` | bridge/src/share_handler.rs:1130-1156 | each answer the walk got was the ring's answer for that id in some state of the run between the arrival of the submission and now |
| `ShareVerdicts.LogFollows` | bridge/src/mining_state.rs:54-76 | in every run a client's log is the jobs added for it, in order |
| `ShareVerdicts.TargetFollows` | bridge/src/mining_state.rs:137-139 | in every run a client's pool target is the one the last step that set it gave, or zero if no step did |
| `ShareVerdicts.PolledMoment` | bridge/src/share_handler.rs:1077-1123 | each pool target a round was judged by was, at some moment between the arrival of the submission and now, the one set last for its client, or zero with none set |
| `ShareVerdicts.ReplyDecides` | bridge/src/share_handler.rs:884-1072 | in every state after the node's answer the verdict is accepted if and only if the answer is a success, of low difficulty if and only if it is another report, stale if and only if it is the duplicate error, bad if and only if it is another error |
| `ShareVerdicts.CreditedWasIssued` | bridge/src/share_handler.rs:606-1250 | the job a share or block is credited to was the ring's answer for its id in such a state, and so a job that an earlier step added for that client |
| `ShareVerdicts.QuietWalk` | bridge/src/share_handler.rs:606-1176 | if its client got no job and no target meanwhile, a submission found what the walk finds on the ring at rest |
| `ShareVerdicts.AbandonedIff` | bridge/src/share_handler.rs:1142-1156 | a submission past its walk ends without a verdict if and only if it named job id zero and the job it was given takes its nonce for neither target |
| `ShareVerdicts.JobZeroAbandons` | bridge/src/share_handler.rs:1142-1156 | for every worker, nonce and job the nonce misses there is a run in which a submission for job id zero is admitted and ends so, with nothing counted |
| `ShareProgress.EveryStepFalls` | bridge/src/share_handler.rs:571-1254 | every step the machine can take lowers the rank of the submission it belongs to and leaves every other submission as it is |
| `ShareProgress.StepsBounded` | bridge/src/share_handler.rs:571-1254 | no interleaving gives a submission more than 609 steps of its own: two for each of 300 ids, the call to the node and eight sections |
| `ShareProgress.CanProceed` | bridge/src/share_handler.rs:571-1254 | a submission that has not ended always has a step of its own to take |
| `ShareGuard.DuplicateIsGenuine` | bridge/src/share_handler.rs:569-604 | a submission is answered as a duplicate only if one of the same worker, job id and nonce text was admitted before it, and is told that one's verdict or that it is in flight |
| `ShareGuard.GuardHistoryIsRun` | bridge/src/share_handler.rs:571-580 | whatever the interleaving, the guard goes through one of its own runs |
| `ShareGuard.SameShareTwice` | bridge/src/share_handler.rs:557-604 | two submissions of one worker, job id and nonce text are both admitted only if the guard was used more than the ttl after the first was last touched or `max_entries` others were admitted in between |
| `NodeSubmission.PipeReached` | bridge/src/share_handler.rs:882-1072 | with `submit_block` in place of arbitrary answers the pipeline goes through states of its own runs |
| `NodeSubmission.NodeReached` | bridge/src/kaspaapi.rs:392-466 | and the block guard and the calls in flight through states of the guard's own protocol |
| `NodeSubmission.RunFits` | bridge/src/kaspaapi.rs:392-466 | in every reachable state each call in flight belongs to a submission waiting with that block, and each mark to a submission whose block is in flight or was taken |
| `NodeSubmission.RefusedIff` | bridge/src/kaspaapi.rs:401-407 | a block is refused if and only if another submission of the same block is in flight or was taken and its mark is not forgotten |
| `NodeSubmission.RefusedSameWork` | bridge/src/kaspaapi.rs:401-407 | if no two blocks have one hash, a block is refused only for another submission with the same job and the same nonce |
| `NodeSubmission.BlockVerdict` | bridge/src/share_handler.rs:884-1072 | a submission whose walk found a block is stale if and only if the block was refused, accepted if and only if the node reported success, and bad for every other answer |
| `NodeSubmission.RefusedStaysStale` | bridge/src/share_handler.rs:1004-1036 | a refused submission is stale in every later state |
| `NodeSubmission.OneSubmissionPerBlock` | bridge/src/kaspaapi.rs:392-466 | through a whole run no two submissions send or are paid for one block if and only if no event sends a block that another submission has in flight or taken, its mark being gone or forgotten |
| `NodeSubmission.MarksKeptIff` | bridge/src/kaspaapi.rs:392-466 | through a whole run every block in flight or taken keeps its mark and has one submission if and only if no event forgets such a mark |
| `Vardiff.FloorLog2` | bridge/src/share_handler.rs:108-108 | the exponent of the greatest power of two that is not above the number |
| `Vardiff.CeilLog2` | bridge/src/share_handler.rs:108-108 | the exponent of the least power of two that is not below the number |
| `Vardiff.ClampShape` | bridge/src/share_handler.rs:103-111 | whatever it is given, the clamp answers with the floor or a power of two above it |
| `Vardiff.Unmoved` | bridge/src/share_handler.rs:123-150 | through any stretch of ticks the difficulty stays as it is unless one of them saw no share for ninety seconds, or at least three shares in at least thirty at no more than 0.75 or no less than 1.25 of the expected rate |
| `Vardiff.PrepareMinDiff` | bridge/src/stratum_server.rs:98-105 | with the clamp on a positive minimum becomes the greatest power of two under it, zero becomes four, and the result is aligned; otherwise it is left |
| `Vardiff.StepBounds` | bridge/src/share_handler.rs:152-169 | outside the dead band the square root is more than ten percent off one, so that only the floor can bring a proposal within the filter |
| `Vardiff.PowersOfTwoKept` | bridge/src/share_handler.rs:103-170 | with the clamp on and an aligned floor every difficulty of every run is a power of two not under the floor, and every change doubles or halves it |
| `Vardiff.ClampNeedsAlignedFloor` | bridge/src/share_handler.rs:101-138 | all runs from a power of two stay on powers of two if and only if the floor is aligned |
| `Vardiff.SlowAtFloor` | bridge/src/share_handler.rs:129-169 | a slow or silent worker at the floor is left there, without the clamp or with an aligned floor |
| `Vardiff.SilentRises` | bridge/src/share_handler.rs:129-138 | with the clamp and another floor a silent worker at the floor is raised above it |
| `Vardiff.FloorHolds` | bridge/src/share_handler.rs:113-170 | every slow or silent worker at the floor is left there if and only if the clamp is off or the floor aligned |
| `VardiffConvergence.GoesUp` | bridge/src/share_handler.rs:143-169 | from too low a difficulty the rule acts, and moves up but not past the ideal |
| `VardiffConvergence.GoesDown` | bridge/src/share_handler.rs:143-169 | from too high a difficulty the rule acts, and moves down but not past the ideal or to the floor |
| `VardiffConvergence.HeldBackIff` | bridge/src/share_handler.rs:148-169 | outside the dead band, without the clamp, the rule leaves the difficulty alone if and only if the worker is too slow and the floor is within ten percent of the difficulty |
| `VardiffConvergence.UpToPow2` | bridge/src/share_handler.rs:153-154 | the distance the steps are counted by, in closed form |
| `VardiffConvergence.SteadyTick` | bridge/src/share_handler.rs:1796-1810 | one tick changes the difficulty if and only if it is outside the band, towards the ideal, and one zone closer |
| `VardiffConvergence.SteadyRunConverges` | bridge/src/share_handler.rs:114-170 | against a steady worker whose ideal is not under the floor every difficulty lies between the first and the ideal, and a start within a factor 2^(k+2) is in the band for good after k + 3 adjustments |
| `VardiffClamped.ClampedTick` | bridge/src/share_handler.rs:103-170 | with the clamp and a floor that is a power of two, one tick on a steady worker doubles the difficulty exactly if the worker is too fast and halves it exactly if it is too slow and above the floor |
| `VardiffClamped.BetweenBandsIff` | bridge/src/share_handler.rs:96-97 | the ideal lies between the bands of a difficulty on the ladder and its double if and only if it is past the band of the one the ticks lead to |
| `VardiffClamped.ClampedRun` | bridge/src/share_handler.rs:103-170 | every steady clamped run, in closed form: one power closer to that one with each tick, and then there, or there and at its double by turns |
| `VardiffClamped.SettlesIff` | bridge/src/share_handler.rs:103-170 | from a power of two the difficulty comes to rest, in the band or on a floor above it, if and only if no power of two from the floor up has the ideal between 1.25 and 1.5 times it; otherwise it doubles and halves by turns for ever |
| `CompressedParents.ExpandAt` | consensus/core/src/header.rs:45-47 | the levels from the end of one run to the end of the next are that run's |
| `CompressedParents.ExpandInjective` | consensus/core/src/header.rs:106-138 | two accepted encodings of the same levels are the same encoding |
| `CompressedParents.Get` | consensus/core/src/header.rs:30-43 | a level is read without expanding, or none past the end |
| `CompressedParents.Push` | consensus/core/src/header.rs:49-64 | one level more at the end of the expansion, still canonical; refused exactly at 255 levels |
| `CompressedParents.Compress` | consensus/core/src/header.rs:89-104 | counting equal neighbours gives a canonical encoding of exactly the given levels; more than 255 levels, and then more than 255 times 2048 parents, are refused |
| `CompressedParents.WeightIsSize` | consensus/core/src/header.rs:124-132 | counting parents run by run is counting those of the expansion |
| `CompressedParents.Accept` | consensus/core/src/header.rs:106-138 | ready-made runs are let in, unchanged, if and only if they are canonical and stand for no more than 255 times 2048 parents; the error for others is that of the first run that is out of order or continues the one before it |
| `Bytes.LERoundTrip` | bridge/src/hasher.rs:184-188 | a number that fits is read back from its little-endian bytes |
| `Bytes.FromLERoundTrip` | bridge/src/hasher.rs:256-262 | bytes are recovered from their little-endian number |
| `Bytes.StripZerosValue` | bridge/src/hasher.rs:234-239 | leading zeros do not change a big-endian number |
| `HeaderPreimage.FirstNonZero` | bridge/src/hasher.rs:235-237 | the search for the first nonzero byte cuts exactly the leading zeros |
| `HeaderPreimage.FeedLevels` | bridge/src/hasher.rs:190-203 | the nested loops feed the level counts and hashes of the function pre-image |
| `HeaderPreimage.SerializeBlockHeader` | bridge/src/hasher.rs:179-246 | what the bridge feeds the hasher is what consensus hashes with nonce and time stamp zero |
| `HeaderPreimage.LevelsRoundTrip` | consensus/core/src/hashing/mod.rs:90-97 | any number of levels with any number of parents is decoded from its bytes, whatever follows |
| `HeaderPreimage.WorkRoundTrip` | consensus/core/src/hashing/mod.rs:77-88 | blue work is decoded from its stripped, length-prefixed bytes, whatever follows |
| `HeaderPreimage.PreimageRoundTrip` | consensus/core/src/hashing/header.rs:5-31 | a pre-image, whatever follows it, decodes to every field it was made from |
| `HeaderPreimage.PreimageInjective` | bridge/src/hasher.rs:179-246 | pre-images of two headers are equal, or one a prefix of the other, if and only if the headers agree on everything but time stamp and nonce, the encoding of the parents included |
| `JobStrings.LargeJobParams` | bridge/src/hasher.rs:366-390 | for at least 32 bytes the big-endian words and the swapped time stamp make the same text as hash and little-endian time stamp; fewer bytes are the panic |
| `JobStrings.BigEndianHex` | bridge/src/hasher.rs:369-389 | the digits of a big-endian word are the digits of its bytes |
| `JobStrings.SwappedAsHex` | bridge/src/hasher.rs:384-386 | reading big-endian bytes as little-endian prints the little-endian bytes |
| `JobStrings.IceRiverRoundTrip` | bridge/src/hasher.rs:276-336 | the text has 80 characters and hash and time stamp are read back from it |
| `JobStrings.JobHeader` | bridge/src/hasher.rs:251-266 | the legacy words number min(4, complete words) and determine the bytes they were read from |
| `Octets.U32RoundTrip` | cli/src/qrpng.rs:22-23 | the length field holds the length modulo 2^32 |
| `PngCrc.Crc32` | cli/src/qrpng.rs:11-20 | the loops compute the register function, started at all ones and complemented |
| `PngCrc.EightSteps` | cli/src/qrpng.rs:15-17 | the inner loop is eight bit steps |
| `PngCrc.BitStepInjective` | cli/src/qrpng.rs:16-16 | a bit step loses nothing |
| `PngCrc.BitStepLinear` | cli/src/qrpng.rs:16-16 | a bit step distributes over exclusive or |
| `PngCrc.FourRounds` | cli/src/qrpng.rs:13-18 | four byte rounds are thirty-two bit steps on the register with the little-endian word added |
| `PngCrc.BurstsDetected` | cli/src/qrpng.rs:11-20 | texts of any one length that differ, and only within four consecutive bytes, have different codes |
| `PngCrc.WriteChunk` | cli/src/qrpng.rs:22-29 | appends the chunk the reader below is about |
| `PngCrc.ChunkRoundTrip` | cli/src/qrpng.rs:22-29 | a chunk is read back, whatever follows it, if and only if its data is shorter than 2^32 bytes |
| `PngCrc.BurstsRejected` | cli/src/qrpng.rs:22-29 | a chunk whose kind or data is changed within four consecutive bytes is not read |
| `PngCrc.WritePng` | cli/src/qrpng.rs:55-64 | signature, header, data and end chunk, in this order |
| `PngCrc.PngRoundTrip` | cli/src/qrpng.rs:55-64 | side and compressed data are read back from the file |
| `PngRemainder.StepDivides` | cli/src/qrpng.rs:16-16 | a bit step multiplies by the variable and subtracts the generator polynomial of the PNG specification when the degree reaches 32 |
| `PngRemainder.NoSmallMultiple` | cli/src/qrpng.rs:11-20 | no multiple of the generator but zero has a degree below 32 |
| `PngRemainder.CrcIsRemainder` | cli/src/qrpng.rs:11-20 | for every text a polynomial is the remainder, modulo the generator, of the text times x^32 with thirty-two ones added to its first bits if and only if it is the complement of the code |
| `NonceLanes.NonceClosed` | bridge/src/rkstratum_cpu_miner.rs:213-245 | after k failed tries thread i is at i times the stride plus k times the number of threads, modulo 2^64 |
| `NonceLanes.LanesBeforeWrap` | bridge/src/rkstratum_cpu_miner.rs:205-245 | for any number of threads, those that have not wrapped never try the same nonce if and only if no common divisor of their number and the stride makes two lanes meet before the wrap; when no thread starts wrapped, if and only if the two are coprime |
| `NonceLanes.LanesForever` | bridge/src/rkstratum_cpu_miner.rs:205-245 | threads never try the same nonce, through any number of wraps, if and only if their number is a power of two |
| `NonceLanes.EveryNonceInLane` | bridge/src/rkstratum_cpu_miner.rs:205-245 | for a power of two of threads every nonce is in some thread's lane |
| `CpuMiner.SharedWork.constructor` | bridge/src/rkstratum_cpu_miner.rs:54-56 | version zero and no work |
| `CpuMiner.SharedWork.PublishWork` | bridge/src/rkstratum_cpu_miner.rs:58-63 | the next version, wrapping, with the given work |
| `CpuMiner.SharedWork.TakeUpdate` | bridge/src/rkstratum_cpu_miner.rs:65-74 | once awake: version and work of the slot, or the last version and none on shutdown |
| `CpuMiner.RunsKeepInv` | bridge/src/rkstratum_cpu_miner.rs:53-260 | in every interleaving with fewer publications than versions, the invariant over slot, threads and blocks holds |
| `CpuMiner.WorkMatchesVersion` | bridge/src/rkstratum_cpu_miner.rs:53-79 | the slot's work is the one published under its version, the versions a thread gets strictly increase, and it works on the template of the last one |
| `CpuMiner.OneBlockPerVersion` | bridge/src/rkstratum_cpu_miner.rs:212-260 | every block sent passes its test on the work of a version its thread was given, and a thread sends at most one per version, in order |
| `CpuMiner.SentBlocksDistinct` | bridge/src/rkstratum_cpu_miner.rs:212-260 | with a power of two of threads no two blocks sent have the same template and nonce |
| `CpuMiner.OneMoreTry` | bridge/src/rkstratum_cpu_miner.rs:225-257 | once a newer template is published a thread tries at most one more nonce on the old one |
| `CpuMiner.ShutdownStops` | bridge/src/rkstratum_cpu_miner.rs:215-257 | after a shutdown a thread that has not ended always has a step to take, and ends after two at most |
| `LineFraming.ClientListener.constructor` | bridge/src/stratum_listener.rs:279-281 | a fresh listener |
| `LineFraming.ClientListener.AppendLineData` | bridge/src/stratum_listener.rs:21-27 | appends if the result fits 64 KiB, otherwise leaves the buffer and says so |
| `LineFraming.ClientListener.DrainLines` | bridge/src/stratum_listener.rs:502-545 | the loop over complete lines ends in the state the function gives |
| `LineFraming.ClientListener.Read` | bridge/src/stratum_listener.rs:336-570 | one read: the first-message check, the append and the loop over lines make the state the function gives |
| `LineFraming.Trimmed` | bridge/src/stratum_listener.rs:504-504 | a line is what is left of it with white characters on either side, and begins and ends with none |
| `LineFraming.Nulless` | bridge/src/stratum_listener.rs:339-340 | no NUL is left of a read, and every other character as often as it came |
| `LineFraming.LinesConcat` | bridge/src/stratum_listener.rs:502-545 | the lines of a stream cut anywhere are the lines of the first part and those of its rest with the second |
| `LineFraming.DrainedLines` | bridge/src/stratum_listener.rs:502-545 | the loop dispatches the buffer's lines before the first that looks like HTTP, closes on that one, and otherwise keeps what follows the last newline |
| `LineFraming.ListenedFramed` | bridge/src/stratum_listener.rs:336-570 | for every split: an open listener has dispatched exactly the lines so far and holds the rest, without a newline and at most 64 KiB; a closed one has dispatched a prefix of them |
| `LineFraming.DispatchedLines` | bridge/src/stratum_listener.rs:336-570 | whatever the reads, every line dispatched is a single non-empty one without NULs, white at neither end, not "SM" and with none of the words HTTP begins with in front |
| `LineSplits.FramingExact` | bridge/src/stratum_listener.rs:336-570 | for every stream and every split: the lines dispatched are those, before the first that looks like HTTP, of the reads that are used, which are none if the first ends after a bare "SM" and otherwise those before the first that overruns the buffer |
| `LineSplits.OverrunCloses` | bridge/src/stratum_listener.rs:21-27 | a read that overruns the buffer closes the connection and dispatches nothing |
| `LineSplits.NothingElseLost` | bridge/src/stratum_listener.rs:336-570 | for every split the lines dispatched, followed by those only the unused reads complete, are the lines of the whole stream before HTTP; so all are dispatched if and only if the unused reads complete none |
| `LineSplits.SplitIrrelevant` | bridge/src/stratum_listener.rs:336-570 | two splits of one stream dispatch the same lines if and only if their unused reads lose equally many |
| `LineSplits.SplitMatters` | bridge/src/stratum_listener.rs:341-359 | any line that starts with "SM" and is not HTTP is lost when the first read ends after those letters, and dispatched in one read |
| `LineSplits.OverrunMatters` | bridge/src/stratum_listener.rs:21-27 | a line that nearly fills the buffer is lost when its newline comes with the bytes behind it, and dispatched when they come in separate reads |
| `LineSplits.ShortLinesFit` | bridge/src/stratum_listener.rs:14-27 | if no stretch without a newline exceeds 64 KiB less 1024, no read overruns the buffer |
| `LineSplits.ShortLinesStayConnected` | bridge/src/stratum_listener.rs:336-570 | such a client, with no line that looks like HTTP, is never disconnected and all its lines are dispatched |
| `WriteHalf.RunsKeepInv` | bridge/src/stratum_context.rs:490-550 | in every interleaving the half is in exactly one place, the lock flag is set exactly while one writer is between acquire and release, at most one disconnect gets past the flag, and a writer begins at most three writes and completes one exactly when it reports success |
| `WriteHalf.WritesNeverOverlap` | bridge/src/stratum_context.rs:496-525 | while a writer has the half no other writer is in the locked part, the slot is empty and nothing is shut down |
| `WriteHalf.NothingWrittenAfterShut` | bridge/src/stratum_context.rs:587-630 | once a disconnect has taken the half nobody holds it and no write ever begins again |
| `WriteHalf.LateWritersSilent` | bridge/src/stratum_context.rs:491-495 | a writer that comes after the flag is set writes nothing |
| `WriteHalf.ShutIffInSlot` | bridge/src/stratum_context.rs:587-622 | the half of a disconnected connection is shut down if and only if it was in the slot when the winning disconnect came for it |
| `WriteHalf.FailureDisconnects` | bridge/src/stratum_context.rs:525-545 | a write that fails, or times out for the third time, is reported as an error, and by then the connection is disconnected or about to be |
| `WriteHalf.HalfLeftBehind` | bridge/src/stratum_context.rs:490-622 | a reachable state in which the connection is disconnected, a write has gone through since, and the half is back in the slot |
| `MessageWire.WholeMessagesIff` | bridge/src/stratum_context.rs:489-550 | in every interleaving the lines the other side has in full are exactly the messages whose writes went through, in order, if and only if none of these was sent after the beginning of a message that a timeout or an error broke off |
| `MessageWire.RetryGarbles` | bridge/src/stratum_context.rs:507-537 | for every message and every place its first write may break off at, a run in which the retry goes through and the one line read is that beginning and the message |
| `GaugeHistory.RecentLists` | bridge/src/prom.rs:721-741 | the unbounded list holds each label set once, and exactly those recorded |
| `GaugeHistory.RecentOrder` | bridge/src/prom.rs:721-741 | what comes earlier in the list was recorded again after the last recording of what comes later |
| `GaugeHistory.WithoutFirst` | bridge/src/prom.rs:728-740 | moving a label set to the front of the truncated list and truncating is truncating the whole list |
| `GaugeHistory.Removed` | bridge/src/prom.rs:729-731 | the search and removal takes out exactly the first occurrence |
| `GaugeHistory.Truncated` | bridge/src/prom.rs:734-740 | the loop that drops the oldest ends with the first 512 and with their series only |
| `GaugeHistory.Gauge.constructor` | bridge/src/prom.rs:723-725 | no history and no series |
| `GaugeHistory.Gauge.Record` | bridge/src/prom.rs:743-760 | after any sequence of recordings, one after the other, the history is the first 512 of that list and the live series are exactly the sets in it |
| `GaugeHistory.HistoryExact` | bridge/src/prom.rs:721-741 | however recordings overlap, the history is the first 512 of the list of the label sets entered, the last entered first and each once |
| `GaugeHistory.HistoryDistinct` | bridge/src/prom.rs:721-741 | so it lists no label set twice |
| `GaugeHistory.InStepIff` | bridge/src/prom.rs:721-760 | with recordings that overlap, the live series are those of the history and of recordings under way, in all states of a run, if and only if no step drops a label set that another recording has just set again |
| `GaugeHistory.SeriesLost` | bridge/src/prom.rs:721-760 | for any 513 label sets, a run that ends with nothing under way and the first of them at the head of the history without a series |

## Left out

- kHeavyHash, header hashing, address decoding, QR encoding, zlib and the raster of the QR image are not modelled; hashes of jobs and templates are uninterpreted.
- Sockets, gRPC, tokio tasks and timers, Prometheus serving, configuration files and command lines.
- Delivery of replies, logging, dashboards, hash-rate estimates, miner-name detection by substring: presentation or single-branch facts.
- The confirmed-blocks counters, which another task bumps after polling the node; the model's block events are those of `submit_block`.
- Floating-point rounding in variable difficulty: it is modelled over reals with the square root passed in, and the convergence result asks for difficulties above ten machine epsilons.
- Non-finite floating-point inputs, which the rule answers with no change.
- Lost wake-ups of the miner's condition variable, and cancellation of tasks between two steps: a thread that may wake is taken to do so.
- Overflow of the 64-bit job-id counter, and of the CPU miner's version after 2^64 publications: the results on the miner ask for fewer publications.
- Non-ASCII input, for which lossy decoding of a read may split a character: line framing is modelled on ASCII text.
- The predicate by which worker records are pruned: any set of records may be dropped at any time.
- A disconnect that a message handler asks for while the listener still has lines in its buffer.
- The clamp on a floor that is no power of two: `VardiffClamped` is for the floors the server prepares, above one machine epsilon; for others see `Vardiff.ClampNeedsAlignedFloor`.
- Several bridge instances in one process, which share the block guard but not their counters: the joint machine has one instance.
- Saturation of the sums over parents: the bound they are compared with is far below the greatest 64-bit number.
- WriteHalf.RunsKeepInv: the connection is a value that steps change, not an object, because its flags and its slot are changed by many tasks at once.
- Port normalisation, coinbase tags, release checks and process control: they would only add easier members.
