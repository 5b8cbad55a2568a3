/** The PoW loop of `handle_submit`: the submitted job is tried first, then earlier ones, for
    miners that report a wrong job id. */
module WalkBack {
  import opened Wrappers
  import opened JobRing
  import opened Targets

  datatype Job = Job(bits: Bits, daaScore: nat, blueScore: nat, contents: string)

  /** What the loop reads. The hash of a job and nonce is left open. Each round asks for one id
      and one pool target, and no id is asked for twice, so a function of the id stands for any
      interleaving with jobs being added and the difficulty being changed. */
  datatype Readings = Readings(pow: (Job, nat) -> nat, job: nat -> Option<Job>, poolTarget: nat -> nat)

  datatype Found =
    | Block(id: nat, job: Job)   // meets the network target: a block to submit
    | Share(id: nat, job: Job)   // beats the pool target
    | LowDiff                    // every job tried, or the next one missing
    | NoPrevious                 // job id zero has no previous job: the handler returns an error

  predicate IsBlock(r: Readings, nonce: nat, job: Job) {
    r.pow(job, nonce) <= BridgeTarget(job.bits)
  }

  predicate IsShare(r: Readings, nonce: nat, id: nat, job: Job) {
    r.pow(job, nonce) < r.poolTarget(id)
  }

  predicate LastRound(jobId: nat, cur: nat) {
    cur == 1 || cur % MAX_JOBS == (jobId % MAX_JOBS + 1) % MAX_JOBS
  }

  /** The loop from the round on `cur` on. */
  function Walk(r: Readings, nonce: nat, jobId: nat, cur: nat, job: Job): Found
    decreases cur
  {
    if IsBlock(r, nonce, job) then Block(cur, job)
    else if IsShare(r, nonce, cur, job) then Share(cur, job)
    else if LastRound(jobId, cur) then LowDiff
    else if cur == 0 then NoPrevious
    else match r.job(cur - 1)
      case None => LowDiff
      case Some(prev) => Walk(r, nonce, jobId, cur - 1, prev)
  }

  /** The lowest id the loop may come to. */
  function Lowest(jobId: nat): nat {
    if jobId >= MAX_JOBS then jobId - (MAX_JOBS - 1) else if jobId >= 1 then 1 else 0
  }

  /** The loop itself, with the flag and the slot arithmetic of the source. */
  method RunWalk(r: Readings, nonce: nat, jobId: nat, job: Job) returns (found: Found, visited: seq<nat>)
    ensures found == Walk(r, nonce, jobId, jobId, job)
    ensures 1 <= |visited| <= jobId - Lowest(jobId) + 1
    ensures forall i :: 0 <= i < |visited| ==> visited[i] == jobId - i
  {
    LowestBelow(jobId);
    hide Lowest;
    var cur, curJob, invalidShare := jobId, job, false;
    visited := [];
    while true
      invariant Lowest(jobId) <= cur <= jobId
      invariant |visited| == jobId - cur
      invariant forall i :: 0 <= i < |visited| ==> visited[i] == jobId - i
      invariant cur < jobId ==> invalidShare
      invariant Walk(r, nonce, jobId, cur, curJob) == Walk(r, nonce, jobId, jobId, job)
      decreases cur
    {
      visited := visited + [cur];
      var powValue := r.pow(curJob, nonce);
      if powValue <= BridgeTarget(curJob.bits) {
        return Block(cur, curJob), visited;
      }
      var poolTarget := r.poolTarget(cur);
      if powValue >= poolTarget {
        if cur == jobId {
          invalidShare := true;
        }
        var currentSlot := cur % MAX_JOBS;
        var nextSubmittedSlot := (jobId % MAX_JOBS + 1) % MAX_JOBS;
        if cur == 1 || currentSlot == nextSubmittedSlot {
          break;
        }
        if cur == 0 {
          return NoPrevious, visited;
        }
        StillAbove(jobId, cur);
        match r.job(cur - 1) {
          case Some(prev) => cur, curJob := cur - 1, prev;
          case None => break;
        }
      } else {
        invalidShare := false;
        return Share(cur, curJob), visited;
      }
    }
    assert invalidShare;
    found := LowDiff;
  }

  lemma LowestBelow(jobId: nat)
    ensures Lowest(jobId) <= jobId
  {
  }

  lemma StillAbove(jobId: nat, cur: nat)
    requires Lowest(jobId) <= cur <= jobId && cur > 0 && !LastRound(jobId, cur)
    ensures Lowest(jobId) < cur
  {
    LowestIsLastRound(jobId);
    hide LastRound;
  }

  lemma LowestIsLastRound(jobId: nat)
    ensures jobId >= 1 ==> LastRound(jobId, Lowest(jobId))
    ensures !LastRound(0, 0)
  {
    if jobId >= MAX_JOBS {
      var low := jobId + 1 - MAX_JOBS;
      NextSlot(jobId);
      SlotIs(jobId + 1, low / MAX_JOBS + 1, low % MAX_JOBS);
    }
  }

  lemma NextSlot(id: nat)
    ensures (id % MAX_JOBS + 1) % MAX_JOBS == (id + 1) % MAX_JOBS
  {
    var q, s := id / MAX_JOBS, id % MAX_JOBS;
    if s + 1 < MAX_JOBS {
      SlotIs(id + 1, q, s + 1);
      SlotIs(s + 1, 0, s + 1);
    } else {
      SlotIs(id + 1, q + 1, 0);
      SlotIs(s + 1, 1, 0);
    }
  }

  lemma LastRoundIsLowest(jobId: nat, cur: nat)
    requires Lowest(jobId) <= cur <= jobId && LastRound(jobId, cur)
    ensures jobId >= 1 && cur == Lowest(jobId)
  {
    LowestIsLastRound(0);
    if cur != 1 {
      NextSlot(jobId);
      SameSlotFar(cur, jobId + 1);
    }
  }

  /** At most 300 rounds, no more than the job id, and no slot twice. */
  lemma RoundsBounded(jobId: nat, i: nat, j: nat)
    requires jobId >= 1 && 0 <= i < j <= jobId - Lowest(jobId)
    ensures jobId - Lowest(jobId) + 1 == if jobId <= 300 then jobId else 300
    ensures (jobId - i) % 300 != (jobId - j) % 300
  {
    if (jobId - i) % MAX_JOBS == (jobId - j) % MAX_JOBS {
      SameSlotFar(jobId - j, jobId - i);
    }
  }

  // ---------- The declarative search ----------

  /** The job under this id exists and neither makes a block nor beats the pool target. */
  predicate Passed(r: Readings, nonce: nat, id: nat) {
    r.job(id).Some? && !IsBlock(r, nonce, r.job(id).value) && !IsShare(r, nonce, id, r.job(id).value)
  }

  ghost predicate PassedAbove(r: Readings, nonce: nat, jobId: nat, low: nat) {
    forall i :: low < i <= jobId ==> Passed(r, nonce, i)
  }

  /** The nearest id, going down from the submitted one, whose job exists and takes the nonce
      decides and is credited; ids stop at `Lowest` and at the first one missing. */
  ghost predicate Decision(r: Readings, nonce: nat, jobId: nat, found: Found) {
    match found
    case Block(id, job) =>
      && Lowest(jobId) <= id <= jobId && r.job(id) == Some(job)
      && IsBlock(r, nonce, job) && PassedAbove(r, nonce, jobId, id)
    case Share(id, job) =>
      && Lowest(jobId) <= id <= jobId && r.job(id) == Some(job)
      && !IsBlock(r, nonce, job) && IsShare(r, nonce, id, job) && PassedAbove(r, nonce, jobId, id)
    case LowDiff =>
      && jobId >= 1
      && exists low :: StopsAt(r, nonce, jobId, low)
    case NoPrevious => jobId == 0 && Passed(r, nonce, 0)
  }

  ghost predicate StopsAt(r: Readings, nonce: nat, jobId: nat, low: nat) {
    && Lowest(jobId) <= low <= jobId && Passed(r, nonce, low) && PassedAbove(r, nonce, jobId, low)
    && (low == Lowest(jobId) || r.job(low - 1) == None)
  }

  lemma {:induction false} WalkDecides(r: Readings, nonce: nat, jobId: nat, cur: nat, job: Job)
    requires Lowest(jobId) <= cur <= jobId && r.job(cur) == Some(job)
    requires PassedAbove(r, nonce, jobId, cur)
    ensures Decision(r, nonce, jobId, Walk(r, nonce, jobId, cur, job))
    decreases cur
  {
    if IsBlock(r, nonce, job) || IsShare(r, nonce, cur, job) {
    } else if LastRound(jobId, cur) {
      LastRoundIsLowest(jobId, cur);
      assert StopsAt(r, nonce, jobId, cur);
    } else {
      LowestIsLastRound(jobId);
      if cur > 0 {
        match r.job(cur - 1)
        case None => assert StopsAt(r, nonce, jobId, cur);
        case Some(prev) => WalkDecides(r, nonce, jobId, cur - 1, prev);
      }
    }
  }

  lemma DecisionUnique(r: Readings, nonce: nat, jobId: nat, f: Found, g: Found)
    requires Decision(r, nonce, jobId, f) && Decision(r, nonce, jobId, g)
    ensures f == g
  {
    if f.LowDiff? && g.LowDiff? {
      return;
    }
    if f.LowDiff? || g.LowDiff? {
      var low: nat :| StopsAt(r, nonce, jobId, low);
      assert low > Lowest(jobId) ==> !Passed(r, nonce, low - 1);
    }
    assert f.Block? || f.Share? ==> !Passed(r, nonce, f.id);
    assert g.Block? || g.Share? ==> !Passed(r, nonce, g.id);
  }

  /** The loop's answer is the declarative search, and only that. */
  lemma WalkIsSearch(r: Readings, nonce: nat, jobId: nat, job: Job, found: Found)
    requires r.job(jobId) == Some(job)
    ensures Walk(r, nonce, jobId, jobId, job) == found <==> Decision(r, nonce, jobId, found)
  {
    WalkDecides(r, nonce, jobId, jobId, job);
    if Decision(r, nonce, jobId, found) {
      DecisionUnique(r, nonce, jobId, found, Walk(r, nonce, jobId, jobId, job));
    }
  }

  // ---------- On a ring at rest ----------

  /** What the loop reads while no job is added and the difficulty stays. */
  function AtRest(pow: (Job, nat) -> nat, log: seq<Job>, poolTarget: nat): Readings {
    Readings(pow, (id: nat) => Lookup(log, id), (id: nat) => poolTarget)
  }

  predicate Takes(pow: (Job, nat) -> nat, poolTarget: nat, nonce: nat, job: Job) {
    pow(job, nonce) <= BridgeTarget(job.bits) || pow(job, nonce) < poolTarget
  }

  ghost predicate NoneTakes(pow: (Job, nat) -> nat, log: seq<Job>, poolTarget: nat, nonce: nat) {
    forall i :: |log| - MAX_JOBS <= i < |log| && i >= 0 ==> !Takes(pow, poolTarget, nonce, log[i])
  }

  lemma PassedIff(pow: (Job, nat) -> nat, log: seq<Job>, poolTarget: nat, nonce: nat, id: nat)
    ensures Passed(AtRest(pow, log, poolTarget), nonce, id)
            <==> Lookup(log, id).Some? && !Takes(pow, poolTarget, nonce, Lookup(log, id).value)
  {
    hide Lookup;
  }

  /** A walk round a full ring that ends on the lowest id has passed every stored job. */
  lemma StopsPassesAll(pow: (Job, nat) -> nat, log: seq<Job>, poolTarget: nat, nonce: nat, jobId: nat)
    requires |log| >= MAX_JOBS && jobId >= MAX_JOBS && Decision(AtRest(pow, log, poolTarget), nonce, jobId, LowDiff)
    ensures NoneTakes(pow, log, poolTarget, nonce)
  {
    var r := AtRest(pow, log, poolTarget);
    var low: nat :| StopsAt(r, nonce, jobId, low);
    FullRingLookup(log, low - 1);
    assert low == Lowest(jobId);
    hide AtRest, Passed, Lookup, Takes;
    forall i | |log| - MAX_JOBS <= i < |log| ensures !Takes(pow, poolTarget, nonce, log[i]) {
      var id := SlotMate(jobId, i + 1);
      assert Passed(r, nonce, id);
      PassedIff(pow, log, poolTarget, nonce, id);
      StoredAt(log, id, i);
    }
  }

  lemma StoredAt(log: seq<Job>, id: nat, i: nat)
    requires i < |log| && |log| - i <= MAX_JOBS && id % MAX_JOBS == (i + 1) % MAX_JOBS
    ensures Lookup(log, id) == Some(log[i])
  {
    LatestCharacterised(|log|, id % MAX_JOBS, i + 1);
  }

  lemma NonePassesAll(pow: (Job, nat) -> nat, log: seq<Job>, poolTarget: nat, nonce: nat, jobId: nat)
    requires |log| >= MAX_JOBS && jobId >= MAX_JOBS && NoneTakes(pow, log, poolTarget, nonce)
    ensures Decision(AtRest(pow, log, poolTarget), nonce, jobId, LowDiff)
  {
    var r := AtRest(pow, log, poolTarget);
    hide AtRest, Passed, Lookup, Takes;
    forall id | Lowest(jobId) <= id <= jobId ensures Passed(r, nonce, id) {
      FullRingLookup(log, id);
      PassedIff(pow, log, poolTarget, nonce, id);
    }
    assert StopsAt(r, nonce, jobId, Lowest(jobId));
  }

  /** For any id from 300 on, issued or not, a full ring refuses the nonce exactly when none of
      the 300 jobs still stored takes it: the walk goes once round the whole ring. */
  lemma FullRingTriesEveryJob(pow: (Job, nat) -> nat, log: seq<Job>, poolTarget: nat, nonce: nat, jobId: nat)
    requires |log| >= MAX_JOBS && jobId >= MAX_JOBS
    ensures Lookup(log, jobId).Some?
    ensures Walk(AtRest(pow, log, poolTarget), nonce, jobId, jobId, Lookup(log, jobId).value) == LowDiff
            <==> forall i :: |log| - MAX_JOBS <= i < |log| ==> !Takes(pow, poolTarget, nonce, log[i])
  {
    var r := AtRest(pow, log, poolTarget);
    FullRingLookup(log, jobId);
    assert r.job(jobId) == Lookup(log, jobId);
    hide AtRest, Lookup, Walk, Decision, Takes;
    WalkIsSearch(r, nonce, jobId, Lookup(log, jobId).value, LowDiff);
    if Decision(r, nonce, jobId, LowDiff) {
      StopsPassesAll(pow, log, poolTarget, nonce, jobId);
    }
    if NoneTakes(pow, log, poolTarget, nonce) {
      NonePassesAll(pow, log, poolTarget, nonce, jobId);
    }
  }

  lemma FullRingLookup(log: seq<Job>, id: nat)
    requires |log| >= MAX_JOBS
    ensures exists i :: |log| - MAX_JOBS <= i < |log| && Lookup(log, id) == Some(log[i])
  {
    var n := |log|;
    var k := SlotMate(n, id);
    LatestCharacterised(n, id % MAX_JOBS, k);
    assert Lookup(log, id) == Some(log[k - 1]);
  }

  /** Some id among the last 300 up to `top` shares the slot of `k`. */
  lemma SlotMate(top: nat, k: nat) returns (id: nat)
    requires top >= MAX_JOBS
    ensures top - MAX_JOBS < id <= top && id % MAX_JOBS == k % MAX_JOBS
  {
    var s := k % MAX_JOBS;
    var q := if s <= top % MAX_JOBS then top / MAX_JOBS else top / MAX_JOBS - 1;
    id := q * MAX_JOBS + s;
    SlotIs(id, q, s);
  }
}
