/** `MiningState`'s job store: job ids count up from one, and a job lives in the slot of its id
    modulo 300 until a later one takes the slot. */
module JobRing {
  import opened Wrappers

  const MAX_JOBS: nat := 300

  /** Of the ids 1 to `n`, the greatest in the given slot. */
  function Latest(n: nat, slot: nat): (r: Option<nat>)
    ensures r.Some? ==> 1 <= r.value <= n
  {
    if n == 0 then None
    else if n % MAX_JOBS == slot then Some(n)
    else Latest(n - 1, slot)
  }

  /** What the ring must answer, in terms of the log of all jobs ever added: the job of the
      greatest issued id in the slot of `id`. */
  function Lookup<J>(log: seq<J>, id: nat): Option<J> {
    match Latest(|log|, id % MAX_JOBS)
    case None => None
    case Some(k) => Some(log[k - 1])
  }

  lemma {:induction false} LatestCharacterised(n: nat, slot: nat, k: nat)
    requires slot < MAX_JOBS
    ensures Latest(n, slot) == Some(k) <==> 1 <= k <= n && k % MAX_JOBS == slot && n - k < MAX_JOBS
  {
    if n > 0 {
      LatestCharacterised(n - 1, slot, k);
      if k < n && k % MAX_JOBS == n % MAX_JOBS {
        SameSlotFar(k, n);
      }
      if n - k == MAX_JOBS {
        SlotIs(n, k / MAX_JOBS + 1, k % MAX_JOBS);
      }
      LatestCase(n, slot, k, n % MAX_JOBS, k % MAX_JOBS, Latest(n - 1, slot));
    }
  }

  /** The step of the induction, from the slots of `n` and `k` alone. */
  lemma LatestCase(n: nat, slot: nat, k: nat, slotOfN: nat, slotOfK: nat, before: Option<nat>)
    requires n > 0 && (before == Some(k) <==> 1 <= k < n && slotOfK == slot && n - 1 - k < MAX_JOBS)
    requires (k == n || n - k == MAX_JOBS ==> slotOfK == slotOfN) && (k < n && slotOfK == slotOfN ==> n - k >= MAX_JOBS)
    ensures (if slotOfN == slot then Some(n) else before) == Some(k)
            <==> 1 <= k <= n && slotOfK == slot && n - k < MAX_JOBS
  {
  }

  lemma SlotIs(n: nat, q: int, slot: nat)
    requires n == q * MAX_JOBS + slot && slot < MAX_JOBS
    ensures n % MAX_JOBS == slot
  {
    var d := n / MAX_JOBS - q;
    assert n % MAX_JOBS - slot == -d * MAX_JOBS;
  }

  lemma SameSlotFar(k: nat, n: nat)
    requires k < n && k % MAX_JOBS == n % MAX_JOBS
    ensures n - k >= MAX_JOBS
  {
    var d := n / MAX_JOBS - k / MAX_JOBS;
    assert n - k == d * MAX_JOBS;
  }

  /** Each of the last 300 ids issued is answered with its own job. */
  lemma RecentJobsExact<J>(log: seq<J>, id: nat)
    requires 1 <= id <= |log| && |log| - id < 300
    ensures Lookup(log, id) == Some(log[id - 1])
  {
    LatestCharacterised(|log|, id % MAX_JOBS, id);
  }

  /** An older id is answered with the job that took its slot, never with its own. */
  lemma OldJobsReplaced<J>(log: seq<J>, id: nat)
    requires id + 300 <= |log|
    ensures exists i :: |log| - 300 <= i < |log| && (i + 1) % 300 == id % 300 && Lookup(log, id) == Some(log[i])
  {
    var n := |log|;
    var i := n - (n - id) % MAX_JOBS - 1;
    SlotOfDifference(n, id);
    LatestCharacterised(n, id % MAX_JOBS, i + 1);
    assert Lookup(log, id) == Some(log[i]);
  }

  lemma SlotOfDifference(n: nat, id: nat)
    requires id <= n
    ensures (n - (n - id) % MAX_JOBS) % MAX_JOBS == id % MAX_JOBS
  {
    var q := (n - id) / MAX_JOBS;
    assert n - (n - id) % MAX_JOBS == id + q * MAX_JOBS;
    SlotIs(id + q * MAX_JOBS, id / MAX_JOBS + q, id % MAX_JOBS);
  }

  /** Both maps name the greatest issued id of the slot, or both leave it empty. */
  ghost predicate SlotValid<J>(jobs: map<nat, J>, jobIds: map<nat, nat>, log: seq<J>, s: nat) {
    match Latest(|log|, s)
    case None => s !in jobs && s !in jobIds
    case Some(k) => s in jobs && s in jobIds && jobs[s] == log[k - 1] && jobIds[s] == k
  }

  class MiningState<J> {
    var jobs: map<nat, J>
    var jobIds: map<nat, nat>
    var jobCounter: nat
    ghost var log: seq<J>

    /** The two maps agree with the log of everything added. */
    ghost predicate Valid()
      reads this
    {
      && jobCounter == |log|
      && (forall s :: s in jobs || s in jobIds ==> s < MAX_JOBS)
      && (forall s :: 0 <= s < MAX_JOBS ==> SlotValid(jobs, jobIds, log, s))
    }

    constructor ()
      ensures Valid() && log == []
    {
      jobs := map[];
      jobIds := map[];
      jobCounter := 0;
      log := [];
    }

    method AddJob(job: J) returns (id: nat)
      requires Valid()
      modifies this
      ensures Valid() && log == old(log) + [job] && id == |log|
    {
      ghost var jobs0, jobIds0, log0 := jobs, jobIds, log;
      jobCounter := jobCounter + 1;
      id := jobCounter;
      var slot := id % MAX_JOBS;
      jobs := jobs[slot := job];
      jobIds := jobIds[slot := id];
      log := log + [job];
      forall s | 0 <= s < MAX_JOBS
        ensures SlotValid(jobs, jobIds, log, s)
      {
        assert SlotValid(jobs0, jobIds0, log0, s);
      }
    }

    method GetJob(id: nat) returns (job: Option<J>)
      requires Valid()
      ensures job == Lookup(log, id)
    {
      var slot := id % MAX_JOBS;
      assert SlotValid(jobs, jobIds, log, slot);
      job := if slot in jobs then Some(jobs[slot]) else None;
    }

    method GetJobIdAtSlot(slot: nat) returns (id: Option<nat>)
      requires Valid()
      ensures id == Latest(|log|, slot % MAX_JOBS)
    {
      var s := slot % MAX_JOBS;
      assert SlotValid(jobs, jobIds, log, s);
      id := if s in jobIds then Some(jobIds[s]) else None;
    }
  }
}
