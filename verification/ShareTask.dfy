/** One submission in `handle_submit`, from the moment it has its job: the rounds of the walk-back,
    the call to the node, and the locked sections that record the verdict. */
module ShareTask {
  import opened DuplicateGuard
  import opened ExpiringQueue
  import opened JobRing
  import opened Targets
  import opened WalkBack
  import opened Wrappers
  import Submission
  import Text

  // ---------- A client's mining state ----------

  /** The jobs ever added to a client's ring, and the pool targets ever set for it. */
  datatype Client = Client(log: seq<Job>, targets: seq<nat>)

  /** `stratum_diff`: zero as long as there is none. */
  function PoolTarget(targets: seq<nat>): nat {
    if targets == [] then 0 else targets[|targets| - 1]
  }

  // ---------- Verdicts ----------

  /** The counter a verdict goes to. */
  datatype Class = CAccepted | CStale | CInvalid

  function ClassOf(o: Outcome): Class {
    match o
    case Accepted => CAccepted
    case Stale => CStale
    case _ => CInvalid
  }

  /** The answers of `submit_block`: a successful report, another report, `ErrDuplicateBlock`, another
      error. */
  datatype NodeReply = Success | Rejected | DuplicateBlock | OtherError

  /** The locked sections after the verdict is known: get or create the worker's record, add one
      to its counter, add one to the overall counter, tell the sink of a block or of a share, and
      store the outcome in the duplicate guard. */
  datatype Action = Fetch | BumpWorker | BumpOverall | TellBlock | TellShare | StoreOutcome

  /** What is left to do once the outcome is known, in the order of the source. */
  function Program(o: Outcome, viaBlock: bool): seq<Action> {
    match o
    case Accepted =>
      if viaBlock then [Fetch, TellBlock, Fetch, Fetch, BumpWorker, BumpOverall, TellShare, StoreOutcome]
      else [Fetch, Fetch, BumpWorker, BumpOverall, TellShare, StoreOutcome]
    case Stale => [StoreOutcome, Fetch, BumpWorker, BumpOverall]
    case _ => [Fetch, BumpWorker, BumpOverall, StoreOutcome]
  }

  // ---------- A submission ----------

  datatype Phase =
    | Testing                                           // about to test the current job
    | Asking                                            // about to ask for the job before it
    | Submitting                                        // the block is with the node
    | Recording(outcome: Outcome, viaBlock: bool, pc: nat)
    | Abandoned                                         // left by an error, without a verdict

  /** An answer of the ring, and how many jobs had been added to it by then. */
  datatype Asked = Asked(job: Option<Job>, at: nat)

  /** A reading of the pool target, and how many had been set by then. */
  datatype Polled = Polled(target: nat, at: nat)

  /** `since` is how many jobs and targets its client had when it got its job, `asked` and `polled`
      what it has read since, `cur` and `curJob` the round it is in or ended in; `record` is the
      worker record it fetched last, and `name` the name it fetched it under. */
  datatype Task = Task(client: nat, worker: string, jobId: nat, nonceText: string, since: (nat, nat),
                       asked: map<nat, Asked>, polled: map<nat, Polled>, cur: nat, curJob: Job,
                       found: Option<Found>, record: nat, name: string, phase: Phase)

  function Arrived(c: Client, client: nat, worker: string, jobId: nat, nonceText: string, job: Job): Task {
    Task(client, worker, jobId, nonceText, (|c.log|, |c.targets|), map[jobId := Asked(Some(job), |c.log|)], map[],
         jobId, job, None, 0, "", Testing)
  }

  function KeyOf(t: Task): Key {
    Submission.SubmitKey(t.worker, t.jobId, t.nonceText)
  }

  function NonceOf(t: Task): nat {
    match Text.ParseHexU64(t.nonceText) case Some(n) => n case None => 0
  }

  /** The job a share is credited to: the one the walk-back ended on. */
  function Credited(t: Task): Job {
    t.curJob
  }

  predicate Walking(t: Task) {
    t.phase.Testing? || t.phase.Asking?
  }

  // ---------- The rounds ----------

  predicate MeetsNetwork(pow: (Job, nat) -> nat, nonce: nat, job: Job) {
    pow(job, nonce) <= BridgeTarget(job.bits)
  }

  /** How the test of the current job against the two targets ends. */
  function TestResult(pow: (Job, nat) -> nat, t: Task, target: nat): (Phase, Option<Found>) {
    if MeetsNetwork(pow, NonceOf(t), t.curJob) then (Submitting, Some(Block(t.cur, t.curJob)))
    else if pow(t.curJob, NonceOf(t)) < target then (Recording(Accepted, false, 0), Some(Share(t.cur, t.curJob)))
    else if LastRound(t.jobId, t.cur) then (Recording(Outcome.LowDiff, false, 0), Some(Found.LowDiff))
    else if t.cur == 0 then (Abandoned, Some(NoPrevious))
    else (Asking, None)
  }

  /** The first half of a round: a block, a share, the end of the walk, or on to the job before. The
      pool target is read only for a job that does not make a block. */
  function Tested(pow: (Job, nat) -> nat, c: Client, t: Task): Task {
    var target := PoolTarget(c.targets);
    var polled := if MeetsNetwork(pow, NonceOf(t), t.curJob) then t.polled
                  else t.polled[t.cur := Polled(target, |c.targets|)];
    var (phase, found) := TestResult(pow, t, target);
    t.(polled := polled, phase := phase, found := found)
  }

  /** The second half: the ring's answer for the id before. */
  function AskedPrevious(c: Client, t: Task): Task
    requires t.cur > 0
  {
    var job := Lookup(c.log, t.cur - 1);
    var asked := t.asked[t.cur - 1 := Asked(job, |c.log|)];
    match job
    case None => t.(asked := asked, phase := Recording(Outcome.LowDiff, false, 0), found := Some(Found.LowDiff))
    case Some(j) => t.(asked := asked, phase := Testing, cur := t.cur - 1, curJob := j)
  }

  function AfterReply(r: NodeReply): Phase {
    match r
    case Success => Recording(Accepted, true, 0)
    case Rejected => Recording(Outcome.LowDiff, false, 0)
    case DuplicateBlock => Recording(Stale, false, 0)
    case OtherError => Recording(Bad, false, 0)
  }

  // ---------- Recording ----------

  predicate Did(t: Task, a: Action) {
    t.phase.Recording? && a in Behind(Program(t.phase.outcome, t.phase.viaBlock), t.phase.pc)
  }

  function Behind(program: seq<Action>, pc: nat): seq<Action> {
    if pc <= |program| then program[..pc] else program
  }

  predicate Pending(t: Task) {
    t.phase.Recording? && t.phase.pc < |Program(t.phase.outcome, t.phase.viaBlock)|
  }

  predicate Ended(t: Task) {
    t.phase.Abandoned? || (t.phase.Recording? && !Pending(t))
  }

  function NextAction(t: Task): Action
    requires Pending(t)
  {
    Program(t.phase.outcome, t.phase.viaBlock)[t.phase.pc]
  }

  function Advanced(t: Task): Task
    requires t.phase.Recording?
  {
    t.(phase := t.phase.(pc := t.phase.pc + 1))
  }

  /** Each action but `Fetch` occurs once, and no record is fetched after the worker was counted. */
  lemma ProgramShape(o: Outcome, viaBlock: bool, pc: nat)
    requires pc < |Program(o, viaBlock)|
    ensures Program(o, viaBlock)[pc] in Behind(Program(o, viaBlock), pc) ==> Program(o, viaBlock)[pc] == Fetch
    ensures Program(o, viaBlock)[pc] == Fetch ==> BumpWorker !in Behind(Program(o, viaBlock), pc)
  {
    PlacesKept(o, viaBlock);
    hide Program, Place;
  }

  /** Where an action other than `Fetch` stands in the program it occurs in. */
  function Place(o: Outcome, viaBlock: bool, a: Action): nat {
    var before := if viaBlock then 2 else 0;
    match a
    case TellBlock => 1
    case BumpWorker => (match o case Accepted => before + 2 case Stale => 2 case _ => 1)
    case BumpOverall => (match o case Accepted => before + 3 case Stale => 3 case _ => 2)
    case TellShare => before + 4
    case StoreOutcome => (match o case Accepted => before + 5 case Stale => 0 case _ => 3)
    case Fetch => 0
  }

  lemma PlacesKept(o: Outcome, viaBlock: bool)
    ensures var program := Program(o, viaBlock);
      forall i :: 0 <= i < |program| ==>
        if program[i] == Fetch then i < Place(o, viaBlock, BumpWorker) else i == Place(o, viaBlock, program[i])
  {
  }

  /** A record is fetched before it is changed, and the worker counted before the total. */
  lemma ProgramOrder(o: Outcome, viaBlock: bool, i: nat)
    requires i < |Program(o, viaBlock)|
    ensures Program(o, viaBlock)[i] == BumpWorker ==> i > 0 && Program(o, viaBlock)[i - 1] == Fetch
    ensures Program(o, viaBlock)[i] == BumpOverall ==> i > 0 && Program(o, viaBlock)[i - 1] == BumpWorker
  {
    PlacesKept(o, viaBlock);
    CountedInOrder(o, viaBlock);
    hide Program, Place;
  }

  lemma CountedInOrder(o: Outcome, viaBlock: bool)
    ensures var program, w, a := Program(o, viaBlock), Place(o, viaBlock, BumpWorker), Place(o, viaBlock, BumpOverall);
      && 0 < w < a < |program| && a == w + 1
      && program[w - 1] == Fetch && program[w] == BumpWorker
  {
  }

  lemma BehindGrows(program: seq<Action>, pc: nat)
    requires pc < |program|
    ensures Behind(program, pc + 1) == Behind(program, pc) + [program[pc]]
  {
  }

  lemma DidAdvances(t: Task, a: Action)
    requires Pending(t)
    ensures Did(Advanced(t), a) <==> Did(t, a) || NextAction(t) == a
    ensures NextAction(t) == a && Did(t, a) ==> a == Fetch
    ensures NextAction(t) == Fetch ==> !Did(t, BumpWorker)
  {
    hide Program, Behind;
    var prog, pc := Program(t.phase.outcome, t.phase.viaBlock), t.phase.pc;
    BehindGrows(prog, pc);
    ProgramShape(t.phase.outcome, t.phase.viaBlock, pc);
  }

  lemma DidBefore(t: Task, a: Action, b: Action)
    requires Did(t, a) && ((a == BumpWorker && b == Fetch) || (a == BumpOverall && b == BumpWorker))
    ensures Did(t, b)
  {
    var prog := Program(t.phase.outcome, t.phase.viaBlock);
    var done := Behind(prog, t.phase.pc);
    var i :| 0 <= i < |done| && done[i] == a;
    ProgramOrder(t.phase.outcome, t.phase.viaBlock, i);
    hide Program;
    assert done[i - 1] == prog[i - 1];
  }

  lemma NextBefore(t: Task)
    requires Pending(t) && NextAction(t) == BumpWorker
    ensures Did(t, Fetch)
  {
    var prog, pc := Program(t.phase.outcome, t.phase.viaBlock), t.phase.pc;
    ProgramOrder(t.phase.outcome, t.phase.viaBlock, pc);
    hide Program;
    assert Behind(prog, pc)[pc - 1] == Fetch;
  }

  /** Everything a task that has ended has done. */
  lemma EndedDidAll(t: Task)
    requires Ended(t) && t.phase.Recording? && t.phase.outcome != InFlight && (t.phase.viaBlock ==> t.phase.outcome == Accepted)
    ensures Did(t, BumpWorker) && Did(t, BumpOverall) && Did(t, StoreOutcome)
    ensures Did(t, TellShare) <==> t.phase.outcome == Accepted
    ensures Did(t, TellBlock) <==> t.phase.viaBlock
  {
    var prog := Program(t.phase.outcome, t.phase.viaBlock);
    assert Behind(prog, t.phase.pc) == prog;
  }

  // ---------- How many steps are left ----------

  /** Steps a submission has before it at most: two for every id left to try, the call to the node
      and the sections that record the verdict. */
  function Rank(t: Task): nat {
    match t.phase
    case Testing => 11 + 2 * (t.cur - Floor(t))
    case Asking => 10 + 2 * (t.cur - Floor(t))
    case Submitting => 9
    case Recording(o, viaBlock, pc) => if pc <= |Program(o, viaBlock)| then |Program(o, viaBlock)| - pc else 0
    case Abandoned => 0
  }

  /** The lowest id the walk may come to, or the current one if that is lower. */
  function Floor(t: Task): (f: nat)
    ensures f <= t.cur
  {
    if Lowest(t.jobId) <= t.cur then Lowest(t.jobId) else t.cur
  }
}
