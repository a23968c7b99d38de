/** The database-backed job queue, its workers, and the steps that create and restart runs, as a
    transition system whose steps are the transactions of the program. */
module Jobs {
  import opened Basics

  const STALE_HEARTBEAT_S := 600
  const MAX_ATTEMPTS: nat := 3
  const PRIORITY_USER: nat := 10
  const PRIORITY_SWEEP: nat := 1
  const PRIORITY_CAPPED: nat := 0

  type RunId = nat
  type JobId = nat
  type RfpId = nat
  type Worker = nat

  datatype Origin = User | Sweep

  datatype RfpState = Received | RfpReady | RfpFailed | RfpExpired

  datatype Stage = Reading | Extracting | Auditing | Ready | Failed

  datatype JobStatus = Queued | Processing | Completed | JobFailed

  /** `content` is the hash of the file, `hasSource` says that the file is still stored. */
  datatype Rfp = Rfp(origin: Origin, account: nat, content: nat, state: RfpState, unlocked: bool, hasSource: bool)

  /** `job` is the job enqueued together with the run; the program does not store it. */
  datatype Run = Run(rfp: RfpId, stage: Stage, attempt: nat, heartbeat: int, job: JobId)

  datatype Job = Job(rfp: RfpId, priority: nat, status: JobStatus)

  /** A worker between its two commits, before and after it looked up the latest run. */
  datatype Hold = Claimed(job: JobId) | Working(job: JobId, run: RunId)

  /** The committed state. Indices are in order of creation. */
  datatype Db = Db(runs: seq<Run>, jobs: seq<Job>, rfps: seq<Rfp>, holds: map<Worker, Hold>)

  const EMPTY_DB := Db([], [], [], map[])

  predicate IsLive(run: Run) { run.stage == Reading || run.stage == Extracting || run.stage == Auditing }

  predicate IsActive(job: Job) { job.status == Queued || job.status == Processing }

  /** A requeue may pick any of these jobs of the rfp. */
  predicate IsRestartable(job: Job, rfp: RfpId) { job.rfp == rfp && job.status != Completed }

  predicate IsStale(run: Run, now: int) { IsLive(run) && run.heartbeat < now - STALE_HEARTBEAT_S }

  function NewPriority(origin: Origin, overCap: bool): nat {
    if origin == Sweep then PRIORITY_SWEEP else if overCap then PRIORITY_CAPPED else PRIORITY_USER
  }

  /** `_latest_run`: the most recently created run of the rfp. */
  function LatestRun(runs: seq<Run>, rfp: RfpId): (r: Option<RunId>)
    ensures r.Some? ==> r.value < |runs| && runs[r.value].rfp == rfp
    ensures r.Some? ==> forall k | r.value < k < |runs| :: runs[k].rfp != rfp
    ensures r.None? ==> forall k | 0 <= k < |runs| :: runs[k].rfp != rfp
  {
    if runs == [] then None
    else if runs[|runs| - 1].rfp == rfp then Some(|runs| - 1)
    else LatestRun(runs[..|runs| - 1], rfp)
  }

  predicate IsUnlockedCopy(rfp: Rfp, account: nat, content: nat) {
    rfp.account == account && rfp.content == content && rfp.unlocked
  }

  /** The account's most recent unlocked rfp with the same content. */
  function PriorCopy(rfps: seq<Rfp>, account: nat, content: nat): (p: Option<RfpId>)
    ensures p.Some? ==> p.value < |rfps| && IsUnlockedCopy(rfps[p.value], account, content)
    ensures p.Some? ==> forall q | p.value < q < |rfps| :: !IsUnlockedCopy(rfps[q], account, content)
    ensures p.None? ==> forall q | 0 <= q < |rfps| :: !IsUnlockedCopy(rfps[q], account, content)
  {
    if rfps == [] then None
    else if IsUnlockedCopy(rfps[|rfps| - 1], account, content) then Some(|rfps| - 1)
    else PriorCopy(rfps[..|rfps| - 1], account, content)
  }

  predicate IsClaimable(job: Job) { job.status == Queued && job.priority > 0 }

  /** Job `j` is claimed before job `k`. */
  predicate Precedes(jobs: seq<Job>, j: JobId, k: JobId)
    requires j < |jobs| && k < |jobs|
  {
    jobs[j].priority > jobs[k].priority || (jobs[j].priority == jobs[k].priority && j <= k)
  }

  /** The job that the claim query returns when the rows of `locked` are locked by others. */
  ghost predicate IsNextJob(jobs: seq<Job>, locked: set<JobId>, j: JobId) {
    && j < |jobs| && j !in locked && IsClaimable(jobs[j])
    && forall k | 0 <= k < |jobs| && k !in locked && IsClaimable(jobs[k]) :: Precedes(jobs, j, k)
  }

  // --------------------------------------------------------------- steps

  datatype Action =
    | Upload(account: nat, content: nat, overCap: bool, now: int)
    | Intake(account: nat, content: nat, now: int)
    | TakeJob(worker: Worker, job: JobId, locked: set<JobId>)
    | Capture(worker: Worker)
    | NoRun(worker: Worker)
    | Finish(worker: Worker, ok: bool)
    | Crash(worker: Worker)
    | Beat(run: RunId, now: int)
    | Requeue(run: RunId, now: int, pick: Option<JobId>)
    | GiveUp(run: RunId, now: int)
    | Reprocess(rfp: RfpId, overCap: bool, now: int)
    | Unpark(job: JobId)
    | Unlock(rfp: RfpId)
    | DropSource(rfp: RfpId)
    | Expire(rfp: RfpId, destroyed: bool)

  predicate IsRecovery(a: Action) { a.Requeue? || a.GiveUp? }

  /** The upload is answered with a clone of a finished matrix. */
  predicate IsClone(s: Db, account: nat, content: nat) {
    var prior := PriorCopy(s.rfps, account, content);
    prior.Some? && s.rfps[prior.value].state == RfpReady
  }

  predicate CreatesRun(s: Db, a: Action) {
    a.Reprocess? || a.Intake? || (a.Upload? && !IsClone(s, a.account, a.content))
  }

  predicate MayPick(s: Db, run: RunId, pick: Option<JobId>)
    requires run < |s.runs|
  {
    match pick
    case Some(j) => j < |s.jobs| && IsRestartable(s.jobs[j], s.runs[run].rfp)
    case None => forall j | 0 <= j < |s.jobs| :: !IsRestartable(s.jobs[j], s.runs[run].rfp)
  }

  ghost predicate Enabled(s: Db, a: Action) {
    match a
    case Upload(_, _, _, _) => true
    case Intake(_, _, _) => true
    case TakeJob(worker, job, locked) => worker !in s.holds && IsNextJob(s.jobs, locked, job)
    case Capture(worker) => worker in s.holds && s.holds[worker].Claimed? && HeldRun(s, worker).Some?
    case NoRun(worker) => worker in s.holds && s.holds[worker].Claimed? && HeldRun(s, worker).None?
    case Finish(worker, _) => worker in s.holds && s.holds[worker].Working?
    case Crash(worker) => worker in s.holds
    case Beat(run, _) => run < |s.runs| && IsLive(s.runs[run])
    case Requeue(run, now, pick) =>
      run < |s.runs| && IsStale(s.runs[run], now) && s.runs[run].attempt < MAX_ATTEMPTS && MayPick(s, run, pick)
    case GiveUp(run, now) => run < |s.runs| && IsStale(s.runs[run], now) && s.runs[run].attempt >= MAX_ATTEMPTS
    case Reprocess(rfp, _, _) =>
      && rfp < |s.rfps| && s.rfps[rfp].hasSource && LatestRun(s.runs, rfp).Some?
      && !IsLive(s.runs[LatestRun(s.runs, rfp).value])
    case Unpark(job) => job < |s.jobs| && s.jobs[job].status == Queued && s.jobs[job].priority == PRIORITY_CAPPED
    case Unlock(rfp) => rfp < |s.rfps|
    case DropSource(rfp) => rfp < |s.rfps|
    case Expire(rfp, _) => rfp < |s.rfps| && s.rfps[rfp].state == RfpFailed
  }

  /** The latest run of the rfp of the job that the worker holds. */
  function HeldRun(s: Db, worker: Worker): Option<RunId>
    requires worker in s.holds
  {
    var job := s.holds[worker].job;
    if job < |s.jobs| then LatestRun(s.runs, s.jobs[job].rfp) else None
  }

  function SetStage(runs: seq<Run>, r: RunId, stage: Stage): seq<Run> {
    if r < |runs| then runs[r := runs[r].(stage := stage)] else runs
  }

  function SetStatus(jobs: seq<Job>, j: JobId, status: JobStatus): seq<Job> {
    if j < |jobs| then jobs[j := jobs[j].(status := status)] else jobs
  }

  function SetState(rfps: seq<Rfp>, r: RfpId, state: RfpState): seq<Rfp> {
    if r < |rfps| then rfps[r := rfps[r].(state := state)] else rfps
  }

  /** A run in stage reading together with its queued job. */
  function Start(s: Db, rfp: RfpId, attempt: nat, priority: nat, now: int): Db {
    s.(runs := s.runs + [Run(rfp, Reading, attempt, now, |s.jobs|)], jobs := s.jobs + [Job(rfp, priority, Queued)])
  }

  /** A new rfp, open if its content was unlocked before. */
  function Uploaded(s: Db, account: nat, content: nat, overCap: bool, now: int): Db {
    var rfp := Rfp(User, account, content, Received, PriorCopy(s.rfps, account, content).Some?, true);
    if IsClone(s, account, content) then s.(rfps := s.rfps + [rfp.(state := RfpReady)])
    else Start(s.(rfps := s.rfps + [rfp]), |s.rfps|, 1, NewPriority(User, overCap), now)
  }

  function TakenIn(s: Db, account: nat, content: nat, now: int): Db {
    Start(s.(rfps := s.rfps + [Rfp(Sweep, account, content, Received, false, true)]), |s.rfps|, 1, PRIORITY_SWEEP, now)
  }

  function Finished(s: Db, worker: Worker, ok: bool): Db
    requires worker in s.holds && s.holds[worker].Working?
  {
    var (job, run) := (s.holds[worker].job, s.holds[worker].run);
    var rfp := if job < |s.jobs| then s.jobs[job].rfp else 0;
    Db(SetStage(s.runs, run, if ok then Ready else Failed), SetStatus(s.jobs, job, if ok then Completed else JobFailed),
       SetState(s.rfps, rfp, if ok then RfpReady else RfpFailed), s.holds - {worker})
  }

  function Requeued(s: Db, run: RunId, now: int, pick: Option<JobId>): Db
    requires run < |s.runs|
  {
    var r := s.runs[run];
    var priority := if r.rfp < |s.rfps| then NewPriority(s.rfps[r.rfp].origin, false) else PRIORITY_USER;
    s.(runs := s.runs[run := r.(attempt := r.attempt + 1, heartbeat := now)], rfps := SetState(s.rfps, r.rfp, Received),
       jobs := match pick
         case Some(j) => SetStatus(s.jobs, j, Queued)
         case None => s.jobs + [Job(r.rfp, priority, Queued)])
  }

  /** The rfp's active jobs have failed. */
  function FailActive(jobs: seq<Job>, rfp: RfpId): (r: seq<Job>)
    ensures |r| == |jobs|
    ensures forall j | 0 <= j < |jobs| ::
              r[j] == if jobs[j].rfp == rfp && IsActive(jobs[j]) then jobs[j].(status := JobFailed) else jobs[j]
  {
    seq(|jobs|, j requires 0 <= j < |jobs| =>
      if jobs[j].rfp == rfp && IsActive(jobs[j]) then jobs[j].(status := JobFailed) else jobs[j])
  }

  function GivenUp(s: Db, run: RunId): Db
    requires run < |s.runs|
  {
    var rfp := s.runs[run].rfp;
    s.(runs := SetStage(s.runs, run, Failed), rfps := SetState(s.rfps, rfp, RfpFailed), jobs := FailActive(s.jobs, rfp))
  }

  /** A new run after the run `latest`. */
  function Restarted(s: Db, rfp: RfpId, latest: RunId, overCap: bool, now: int): Db
    requires rfp < |s.rfps| && latest < |s.runs|
  {
    Start(s.(rfps := SetState(s.rfps, rfp, Received)), rfp, s.runs[latest].attempt + 1,
        NewPriority(s.rfps[rfp].origin, overCap), now)
  }

  function Unparked(s: Db, job: JobId): Db
    requires job < |s.jobs|
  {
    var rfp := s.jobs[job].rfp;
    var priority := if rfp < |s.rfps| && s.rfps[rfp].origin == Sweep then PRIORITY_SWEEP else PRIORITY_USER;
    s.(jobs := s.jobs[job := s.jobs[job].(priority := priority)])
  }

  ghost function Next(s: Db, a: Action): Db
    requires Enabled(s, a)
  {
    match a
    case Upload(account, content, overCap, now) => Uploaded(s, account, content, overCap, now)
    case Intake(account, content, now) => TakenIn(s, account, content, now)
    case TakeJob(worker, job, _) =>
      s.(jobs := SetStatus(s.jobs, job, Processing), holds := s.holds[worker := Claimed(job)])
    case Capture(worker) => s.(holds := s.holds[worker := Working(s.holds[worker].job, HeldRun(s, worker).value)])
    case NoRun(worker) => s.(jobs := SetStatus(s.jobs, s.holds[worker].job, JobFailed), holds := s.holds - {worker})
    case Finish(worker, ok) => Finished(s, worker, ok)
    case Crash(worker) => s.(holds := s.holds - {worker})
    case Beat(run, now) => s.(runs := s.runs[run := s.runs[run].(heartbeat := now)])
    case Requeue(run, now, pick) => Requeued(s, run, now, pick)
    case GiveUp(run, _) => GivenUp(s, run)
    case Reprocess(rfp, overCap, now) => Restarted(s, rfp, LatestRun(s.runs, rfp).value, overCap, now)
    case Unpark(job) => Unparked(s, job)
    case Unlock(rfp) => s.(rfps := s.rfps[rfp := s.rfps[rfp].(unlocked := true)])
    case DropSource(rfp) => s.(rfps := s.rfps[rfp := s.rfps[rfp].(hasSource := false)])
    case Expire(rfp, destroyed) =>
      s.(rfps := s.rfps[rfp := s.rfps[rfp].(state := RfpExpired, hasSource := s.rfps[rfp].hasSource && !destroyed)])
  }

  // ----------------------------------------------------------- invariant

  ghost predicate WellFormed(s: Db) {
    && (forall j | 0 <= j < |s.jobs| :: s.jobs[j].rfp < |s.rfps|)
    && (forall r | 0 <= r < |s.runs| ::
          s.runs[r].rfp < |s.rfps| && s.runs[r].attempt >= 1
          && s.runs[r].job < |s.jobs| && s.jobs[s.runs[r].job].rfp == s.runs[r].rfp)
  }

  /** Only the latest run of an rfp is live. */
  ghost predicate OnlyLatestIsLive(s: Db) {
    forall q, r | 0 <= q < r < |s.runs| && s.runs[q].rfp == s.runs[r].rfp :: !IsLive(s.runs[q])
  }

  /** The job of every live run is queued or processing. */
  ghost predicate LiveRunsHaveJobs(s: Db) {
    forall r | 0 <= r < |s.runs| && IsLive(s.runs[r]) :: s.runs[r].job < |s.jobs| && IsActive(s.jobs[s.runs[r].job])
  }

  /** A worker's run is one of its job's rfp, and no older than the run its job was enqueued with. */
  ghost predicate HoldsAreForward(s: Db) {
    forall w | w in s.holds ::
      var hold := s.holds[w];
      && hold.job < |s.jobs|
      && (hold.Working? ==>
            && hold.run < |s.runs| && s.runs[hold.run].rfp == s.jobs[hold.job].rfp
            && forall r | 0 <= r < |s.runs| && s.runs[r].job == hold.job :: r <= hold.run)
  }

  ghost predicate Inv(s: Db) {
    WellFormed(s) && OnlyLatestIsLive(s) && LiveRunsHaveJobs(s) && HoldsAreForward(s)
  }

  /** No run or job is created or moved to another rfp, and no run comes to life. */
  ghost predicate IsUpdate(s: Db, s': Db) {
    && |s'.runs| == |s.runs| && |s'.jobs| == |s.jobs| && |s'.rfps| == |s.rfps|
    && (forall r | 0 <= r < |s.runs| ::
          && s'.runs[r].rfp == s.runs[r].rfp && s'.runs[r].job == s.runs[r].job
          && s'.runs[r].attempt >= s.runs[r].attempt
          && (IsLive(s'.runs[r]) ==> IsLive(s.runs[r])))
    && (forall j | 0 <= j < |s.jobs| :: s'.jobs[j].rfp == s.jobs[j].rfp)
  }

  lemma UpdateKeepsInv(s: Db, s': Db)
    requires Inv(s) && IsUpdate(s, s') && LiveRunsHaveJobs(s')
    requires forall w | w in s'.holds :: w in s.holds && s'.holds[w] == s.holds[w]
    ensures Inv(s')
  {
  }

  // ---------------------------------------------------- steps that create

  lemma StartKeepsRuns(s: Db, rfp: RfpId, attempt: nat, priority: nat, now: int)
    requires Inv(s) && rfp < |s.rfps| && attempt >= 1
    requires forall r | 0 <= r < |s.runs| && s.runs[r].rfp == rfp :: !IsLive(s.runs[r])
    ensures var s' := Start(s, rfp, attempt, priority, now);
            WellFormed(s') && OnlyLatestIsLive(s') && LiveRunsHaveJobs(s')
  {
    var s' := Start(s, rfp, attempt, priority, now);
    assert forall r | 0 <= r < |s'.runs| :: s'.runs[r] == if r < |s.runs| then s.runs[r]
        else Run(rfp, Reading, attempt, now, |s.jobs|);
    assert forall j | 0 <= j < |s'.jobs| :: s'.jobs[j] == if j < |s.jobs| then s.jobs[j]
        else Job(rfp, priority, Queued);
  }

  lemma StartKeepsHolds(s: Db, rfp: RfpId, attempt: nat, priority: nat, now: int)
    requires HoldsAreForward(s)
    ensures HoldsAreForward(Start(s, rfp, attempt, priority, now))
  {
    var s' := Start(s, rfp, attempt, priority, now);
    assert forall r | 0 <= r < |s'.runs| :: s'.runs[r] == if r < |s.runs| then s.runs[r]
        else Run(rfp, Reading, attempt, now, |s.jobs|);
    assert forall j | 0 <= j < |s.jobs| :: s'.jobs[j] == s.jobs[j];
  }

  lemma StartKeepsInv(s: Db, rfp: RfpId, attempt: nat, priority: nat, now: int)
    requires Inv(s) && rfp < |s.rfps| && attempt >= 1
    requires forall r | 0 <= r < |s.runs| && s.runs[r].rfp == rfp :: !IsLive(s.runs[r])
    ensures Inv(Start(s, rfp, attempt, priority, now))
  {
    StartKeepsRuns(s, rfp, attempt, priority, now);
    StartKeepsHolds(s, rfp, attempt, priority, now);
  }

  lemma NewRfpStartKeepsInv(s: Db, rfp: Rfp, priority: nat, now: int)
    requires Inv(s)
    ensures Inv(Start(s.(rfps := s.rfps + [rfp]), |s.rfps|, 1, priority, now))
  {
    StartKeepsInv(s.(rfps := s.rfps + [rfp]), |s.rfps|, 1, priority, now);
  }

  lemma UploadKeepsInv(s: Db, account: nat, content: nat, overCap: bool, now: int)
    requires Inv(s)
    ensures Inv(Uploaded(s, account, content, overCap, now))
  {
    if !IsClone(s, account, content) {
      var rfp := Rfp(User, account, content, Received, PriorCopy(s.rfps, account, content).Some?, true);
      NewRfpStartKeepsInv(s, rfp, NewPriority(User, overCap), now);
    }
  }

  lemma OlderRunsAreSettled(s: Db, rfp: RfpId, latest: RunId)
    requires OnlyLatestIsLive(s) && latest < |s.runs| && !IsLive(s.runs[latest]) && s.runs[latest].rfp == rfp
    requires forall r | latest < r < |s.runs| :: s.runs[r].rfp != rfp
    ensures forall r | 0 <= r < |s.runs| && s.runs[r].rfp == rfp :: !IsLive(s.runs[r])
  {
    forall r | 0 <= r < |s.runs| && s.runs[r].rfp == rfp ensures !IsLive(s.runs[r]) {
      assert r <= latest;
    }
  }

  lemma ResetKeepsInv(s: Db, rfp: RfpId)
    requires Inv(s)
    ensures Inv(s.(rfps := SetState(s.rfps, rfp, Received)))
  {
  }

  lemma RestartKeepsInv(s: Db, rfp: RfpId, latest: RunId, overCap: bool, now: int)
    requires Inv(s) && rfp < |s.rfps| && latest < |s.runs| && !IsLive(s.runs[latest]) && s.runs[latest].rfp == rfp
    requires forall r | latest < r < |s.runs| :: s.runs[r].rfp != rfp
    ensures Inv(Restarted(s, rfp, latest, overCap, now))
  {
    var reset := s.(rfps := SetState(s.rfps, rfp, Received));
    ResetKeepsInv(s, rfp);
    OlderRunsAreSettled(s, rfp, latest);
    var attempt, priority := s.runs[latest].attempt + 1, NewPriority(s.rfps[rfp].origin, overCap);
    StartKeepsInv(reset, rfp, attempt, priority, now);
    assert Restarted(s, rfp, latest, overCap, now) == Start(reset, rfp, attempt, priority, now);
  }

  // --------------------------------------------------- steps that update

  /** Finishing a job leaves no live run whose job it is: the run the worker captured is the only one
      that can have been. */
  lemma FinishKeepsInv(s: Db, worker: Worker, ok: bool)
    requires Inv(s) && Enabled(s, Finish(worker, ok))
    ensures Inv(Finished(s, worker, ok))
    ensures forall r | 0 <= r < |s.runs| && s.runs[r].job == s.holds[worker].job ::
              !IsLive(Finished(s, worker, ok).runs[r]) && (IsLive(s.runs[r]) ==> r == s.holds[worker].run)
  {
    var s', hold := Finished(s, worker, ok), s.holds[worker];
    forall r | 0 <= r < |s.runs| && s.runs[r].job == hold.job && r != hold.run ensures !IsLive(s.runs[r]) {
      assert r < hold.run && s.runs[r].rfp == s.runs[hold.run].rfp;
    }
    UpdateKeepsInv(s, s');
  }

  lemma CaptureKeepsInv(s: Db, worker: Worker)
    requires Inv(s) && Enabled(s, Capture(worker))
    ensures Inv(Next(s, Capture(worker)))
  {
  }

  lemma TakeJobKeepsInv(s: Db, worker: Worker, job: JobId, locked: set<JobId>)
    requires Inv(s) && Enabled(s, TakeJob(worker, job, locked))
    ensures Inv(Next(s, TakeJob(worker, job, locked)))
  {
    UpdateKeepsInv(s, s.(jobs := SetStatus(s.jobs, job, Processing)));
  }

  /** The job of a live run can be picked, so a requeue never has to enqueue a new one. */
  lemma RequeueAlwaysFindsAJob(s: Db, run: RunId, now: int, pick: Option<JobId>)
    requires Inv(s) && Enabled(s, Requeue(run, now, pick))
    ensures pick.Some?
  {
    var own := s.runs[run].job;
    assert own < |s.jobs| && IsRestartable(s.jobs[own], s.runs[run].rfp);
  }

  lemma RequeueKeepsInv(s: Db, run: RunId, now: int, pick: Option<JobId>)
    requires Inv(s) && Enabled(s, Requeue(run, now, pick))
    ensures Inv(Requeued(s, run, now, pick))
  {
    RequeueAlwaysFindsAJob(s, run, now, pick);
    UpdateKeepsInv(s, Requeued(s, run, now, pick));
  }

  lemma GiveUpKeepsInv(s: Db, run: RunId, now: int)
    requires Inv(s) && Enabled(s, GiveUp(run, now))
    ensures Inv(GivenUp(s, run))
  {
    var s' := GivenUp(s, run);
    forall r | 0 <= r < |s'.runs| && IsLive(s'.runs[r])
      ensures s'.runs[r].job < |s'.jobs| && IsActive(s'.jobs[s'.runs[r].job])
    {
      assert s.runs[r].rfp != s.runs[run].rfp by {
        assert r < run || run < r;
      }
    }
    UpdateKeepsInv(s, s');
  }

  lemma StepKeepsInv(s: Db, a: Action)
    requires Inv(s) && Enabled(s, a)
    ensures Inv(Next(s, a))
  {
    match a
    case Upload(account, content, overCap, now) => UploadKeepsInv(s, account, content, overCap, now);
    case Intake(account, content, now) =>
      NewRfpStartKeepsInv(s, Rfp(Sweep, account, content, Received, false, true), PRIORITY_SWEEP, now);
    case TakeJob(worker, job, locked) => TakeJobKeepsInv(s, worker, job, locked);
    case Capture(worker) => CaptureKeepsInv(s, worker);
    case NoRun(worker) => NoRunKeepsInv(s, worker);
    case Finish(worker, ok) => FinishKeepsInv(s, worker, ok);
    case Crash(worker) => UpdateKeepsInv(s, Next(s, a));
    case Beat(run, now) => UpdateKeepsInv(s, Next(s, a));
    case Requeue(run, now, pick) => RequeueKeepsInv(s, run, now, pick);
    case GiveUp(run, now) => GiveUpKeepsInv(s, run, now);
    case Reprocess(rfp, overCap, now) => RestartKeepsInv(s, rfp, LatestRun(s.runs, rfp).value, overCap, now);
    case Unpark(job) => UpdateKeepsInv(s, Next(s, a));
    case _ => UpdateKeepsInv(s, Next(s, a));
  }

  lemma NoRunKeepsInv(s: Db, worker: Worker)
    requires Inv(s) && Enabled(s, NoRun(worker))
    ensures Inv(Next(s, NoRun(worker)))
  {
    var job := s.holds[worker].job;
    assert forall r | 0 <= r < |s.runs| :: s.runs[r].rfp != s.jobs[job].rfp && s.runs[r].job != job;
    UpdateKeepsInv(s, Next(s, NoRun(worker)));
  }

  // ----------------------------------------------- every job has a run

  ghost predicate HasRun(runs: seq<Run>, rfp: RfpId) { exists r :: 0 <= r < |runs| && runs[r].rfp == rfp }

  ghost predicate JobsHaveRuns(s: Db) {
    forall j | 0 <= j < |s.jobs| :: HasRun(s.runs, s.jobs[j].rfp)
  }

  /** Every run, and every job that was there before, keeps its rfp; new jobs have a run. */
  ghost predicate Extends(s: Db, s': Db) {
    && |s.runs| <= |s'.runs| && |s.jobs| <= |s'.jobs|
    && (forall r | 0 <= r < |s.runs| :: s'.runs[r].rfp == s.runs[r].rfp)
    && (forall j | 0 <= j < |s.jobs| :: s'.jobs[j].rfp == s.jobs[j].rfp)
    && (forall j | |s.jobs| <= j < |s'.jobs| :: HasRun(s'.runs, s'.jobs[j].rfp))
  }

  lemma StepExtends(s: Db, a: Action)
    requires Inv(s) && Enabled(s, a)
    ensures Extends(s, Next(s, a))
  {
    var s' := Next(s, a);
    if CreatesRun(s, a) {
      assert s'.runs[|s.runs|].rfp == s'.jobs[|s.jobs|].rfp;
    }
    if a.Requeue? {
      RequeueAlwaysFindsAJob(s, a.run, a.now, a.pick);
    }
  }

  lemma ExtendedJobsHaveRuns(s: Db, s': Db)
    requires JobsHaveRuns(s) && Extends(s, s')
    ensures JobsHaveRuns(s')
  {
    forall j | 0 <= j < |s.jobs| ensures HasRun(s'.runs, s'.jobs[j].rfp) {
      assert HasRun(s.runs, s.jobs[j].rfp);
      var r :| 0 <= r < |s.runs| && s.runs[r].rfp == s.jobs[j].rfp;
      assert s'.runs[r].rfp == s'.jobs[j].rfp;
    }
  }

  /** A worker always finds a run for its job. */
  lemma ClaimedJobHasRun(s: Db, worker: Worker)
    requires Inv(s) && JobsHaveRuns(s)
    ensures !Enabled(s, NoRun(worker))
  {
    if worker in s.holds {
      var job := s.holds[worker].job;
      assert HasRun(s.runs, s.jobs[job].rfp);
    }
  }

  // -------------------------------------------------------- whole runs

  ghost predicate Step(s: Db, a: Action, s': Db) { Enabled(s, a) && s' == Next(s, a) }

  /** The committed states of one execution, from an empty database. */
  ghost predicate IsTrace(states: seq<Db>, actions: seq<Action>) {
    && |states| == |actions| + 1 && states[0] == EMPTY_DB
    && forall i | 0 <= i < |actions| :: Step(states[i], actions[i], states[i + 1])
  }

  lemma {:induction false} TraceInv(states: seq<Db>, actions: seq<Action>, i: nat)
    requires IsTrace(states, actions) && i <= |actions|
    ensures Inv(states[i]) && JobsHaveRuns(states[i])
  {
    if i > 0 {
      TraceInv(states, actions, i - 1);
      assert Step(states[i - 1], actions[i - 1], states[i]);
      StepKeepsInv(states[i - 1], actions[i - 1]);
      StepExtends(states[i - 1], actions[i - 1]);
      ExtendedJobsHaveRuns(states[i - 1], states[i]);
    }
  }

  /** In every committed state of every execution, whatever the workers, crashes and picks: a live
      run is the latest of its rfp, and its own job is queued or processing. */
  lemma LiveRunsAreLatestAndQueued(states: seq<Db>, actions: seq<Action>, i: nat, r: RunId)
    requires IsTrace(states, actions) && i <= |actions| && r < |states[i].runs| && IsLive(states[i].runs[r])
    ensures LatestRun(states[i].runs, states[i].runs[r].rfp) == Some(r)
    ensures var job := states[i].runs[r].job;
            job < |states[i].jobs| && states[i].jobs[job].rfp == states[i].runs[r].rfp && IsActive(states[i].jobs[job])
  {
    TraceInv(states, actions, i);
    var rfp := states[i].runs[r].rfp;
    var latest := LatestRun(states[i].runs, rfp);
    assert latest.Some? && r <= latest.value;
  }

  /** Two error branches are never taken: a requeue always finds a job to restart, and a worker
      always finds a run for the job it claimed. This takes the commits to be serialised: the
      advisory lock of a requeue is released before its commit. */
  lemma ErrorBranchesAreDead(states: seq<Db>, actions: seq<Action>, i: nat)
    requires IsTrace(states, actions) && i < |actions|
    ensures !actions[i].NoRun?
    ensures actions[i].Requeue? ==> actions[i].pick.Some?
  {
    TraceInv(states, actions, i);
    assert Step(states[i], actions[i], states[i + 1]);
    if actions[i].NoRun? {
      ClaimedJobHasRun(states[i], actions[i].worker);
    }
    if actions[i].Requeue? {
      RequeueAlwaysFindsAJob(states[i], actions[i].run, actions[i].now, actions[i].pick);
    }
  }

  // --------------------------------------------------- exclusive claims

  predicate Picks(a: Action, j: JobId) { a.Requeue? && a.pick == Some(j) }

  /** At most one worker holds the job, and none while it is queued. */
  ghost predicate HeldOnce(s: Db, j: JobId) {
    && (forall v, w | v in s.holds && w in s.holds && s.holds[v].job == j && s.holds[w].job == j :: v == w)
    && (forall w | w in s.holds && s.holds[w].job == j :: j < |s.jobs| && s.jobs[j].status != Queued)
  }

  lemma StepKeepsHeldOnce(s: Db, a: Action, j: JobId)
    requires Inv(s) && Enabled(s, a) && HeldOnce(s, j) && !Picks(a, j)
    ensures HeldOnce(Next(s, a), j)
  {
  }

  /** Two workers never hold the same job unless a recovery put it back in the queue: without one,
      every job is processed by one worker at a time, however many compete. */
  lemma {:induction false} ClaimsAreExclusive(states: seq<Db>, actions: seq<Action>, i: nat, j: JobId)
    requires IsTrace(states, actions) && i <= |actions|
    requires forall k | 0 <= k < i :: !Picks(actions[k], j)
    ensures HeldOnce(states[i], j)
  {
    if i > 0 {
      ClaimsAreExclusive(states, actions, i - 1, j);
      TraceInv(states, actions, i - 1);
      assert Step(states[i - 1], actions[i - 1], states[i]);
      StepKeepsHeldOnce(states[i - 1], actions[i - 1], j);
    }
  }

  // -------------------------------------------------- bounded recovery

  /** How often a run can still be recovered. */
  function Weight(run: Run): nat { if IsLive(run) then Max(0, MAX_ATTEMPTS - run.attempt) + 1 else 0 }

  function TotalWeight(runs: seq<Run>): nat {
    if runs == [] then 0 else TotalWeight(runs[..|runs| - 1]) + Weight(runs[|runs| - 1])
  }

  lemma {:induction false} TotalWeightUpdate(runs: seq<Run>, r: RunId, run: Run)
    requires r < |runs|
    ensures TotalWeight(runs[r := run]) == TotalWeight(runs) - Weight(runs[r]) + Weight(run)
  {
    var last := |runs| - 1;
    if r < last {
      TotalWeightUpdate(runs[..last], r, run);
      assert runs[r := run][..last] == runs[..last][r := run];
    } else {
      assert runs[r := run][..last] == runs[..last];
    }
  }

  lemma TotalWeightAppend(runs: seq<Run>, run: Run)
    ensures TotalWeight(runs + [run]) == TotalWeight(runs) + Weight(run)
  {
    assert (runs + [run])[..|runs|] == runs;
  }

  /** A recovery of a stale run takes exactly one off the total. */
  lemma RecoveryWeight(s: Db, a: Action)
    requires Inv(s) && Enabled(s, a) && IsRecovery(a)
    ensures TotalWeight(Next(s, a).runs) == TotalWeight(s.runs) - 1 && |Next(s, a).runs| == |s.runs|
  {
    TotalWeightUpdate(s.runs, a.run, Next(s, a).runs[a.run]);
  }

  lemma RunIsAppended(s: Db, a: Action)
    requires Enabled(s, a) && CreatesRun(s, a)
    ensures |Next(s, a).runs| == |s.runs| + 1
    ensures Next(s, a).runs == s.runs + [Next(s, a).runs[|s.runs|]]
    ensures Weight(Next(s, a).runs[|s.runs|]) <= MAX_ATTEMPTS
  {
  }

  /** The creation of a run adds at most three. */
  lemma CreationWeight(s: Db, a: Action)
    requires Inv(s) && Enabled(s, a) && CreatesRun(s, a)
    ensures TotalWeight(Next(s, a).runs) <= TotalWeight(s.runs) + MAX_ATTEMPTS && |Next(s, a).runs| == |s.runs| + 1
  {
    var runs := Next(s, a).runs;
    RunIsAppended(s, a);
    TotalWeightAppend(s.runs, runs[|s.runs|]);
  }

  /** No other step adds to it. */
  lemma OtherWeight(s: Db, a: Action)
    requires Inv(s) && Enabled(s, a) && !IsRecovery(a) && !CreatesRun(s, a)
    ensures TotalWeight(Next(s, a).runs) <= TotalWeight(s.runs) && |Next(s, a).runs| == |s.runs|
  {
    if a.Finish? {
      var r := s.holds[a.worker].run;
      TotalWeightUpdate(s.runs, r, s.runs[r].(stage := if a.ok then Ready else Failed));
    } else if a.Beat? {
      TotalWeightUpdate(s.runs, a.run, s.runs[a.run].(heartbeat := a.now));
    }
  }

  function Recoveries(actions: seq<Action>): nat {
    if actions == [] then 0
    else Recoveries(actions[..|actions| - 1]) + if IsRecovery(actions[|actions| - 1]) then 1 else 0
  }

  /** Over any execution, recoveries are bounded by the number of runs ever created. */
  lemma {:induction false} RecoveriesAreBounded(states: seq<Db>, actions: seq<Action>)
    requires IsTrace(states, actions)
    ensures Recoveries(actions) + TotalWeight(states[|actions|].runs) <= MAX_ATTEMPTS * |states[|actions|].runs|
  {
    if actions != [] {
      var k := |actions| - 1;
      RecoveriesAreBounded(states[..k + 1], actions[..k]);
      TraceInv(states, actions, k);
      assert Step(states[k], actions[k], states[k + 1]);
      if IsRecovery(actions[k]) {
        RecoveryWeight(states[k], actions[k]);
      } else if CreatesRun(states[k], actions[k]) {
        CreationWeight(states[k], actions[k]);
      } else {
        OtherWeight(states[k], actions[k]);
      }
    }
  }

  /** How often run `r` can still be requeued. */
  function Budget(s: Db, r: RunId): nat {
    if r >= |s.runs| then MAX_ATTEMPTS - 1
    else if IsLive(s.runs[r]) then Max(0, MAX_ATTEMPTS - s.runs[r].attempt)
    else 0
  }

  predicate Requeues(a: Action, r: RunId) { a.Requeue? && a.run == r }

  function RequeuesOf(actions: seq<Action>, r: RunId): nat {
    if actions == [] then 0
    else RequeuesOf(actions[..|actions| - 1], r) + if Requeues(actions[|actions| - 1], r) then 1 else 0
  }

  lemma StepBudget(s: Db, a: Action, r: RunId)
    requires Inv(s) && Enabled(s, a)
    ensures Budget(Next(s, a), r) + (if Requeues(a, r) then 1 else 0) <= Budget(s, r)
  {
  }

  /** No run is requeued more than twice, if the commits are serialised: the advisory lock is released
      before the commit, so two workers that boot together could otherwise both act on a stale run. */
  lemma {:induction false} RequeuedAtMostTwice(states: seq<Db>, actions: seq<Action>, r: RunId)
    requires IsTrace(states, actions)
    ensures RequeuesOf(actions, r) + Budget(states[|actions|], r) <= MAX_ATTEMPTS - 1
  {
    if actions != [] {
      var k := |actions| - 1;
      RequeuedAtMostTwice(states[..k + 1], actions[..k], r);
      TraceInv(states, actions, k);
      assert Step(states[k], actions[k], states[k + 1]);
      StepBudget(states[k], actions[k], r);
    }
  }

  /** A run that is ready or failed never comes to life again. */
  lemma {:induction false} SettledRunStaysSettled(states: seq<Db>, actions: seq<Action>, i: nat, j: nat, r: RunId)
    requires IsTrace(states, actions) && i <= j <= |actions| && r < |states[i].runs| && !IsLive(states[i].runs[r])
    ensures r < |states[j].runs| && !IsLive(states[j].runs[r])
  {
    if i < j {
      SettledRunStaysSettled(states, actions, i, j - 1, r);
      TraceInv(states, actions, j - 1);
      StepStaysSettled(states, actions, j - 1, r);
    }
  }

  lemma StepStaysSettled(states: seq<Db>, actions: seq<Action>, k: nat, r: RunId)
    requires IsTrace(states, actions) && k < |actions| && Inv(states[k])
    requires r < |states[k].runs| && !IsLive(states[k].runs[r])
    ensures r < |states[k + 1].runs| && !IsLive(states[k + 1].runs[r])
  {
    assert Step(states[k], actions[k], states[k + 1]);
  }

  // ------------------------------------------------ the state of the rfp

  ghost predicate HasLiveRun(runs: seq<Run>, rfp: RfpId) {
    exists r :: 0 <= r < |runs| && runs[r].rfp == rfp && IsLive(runs[r])
  }

  /** An rfp is shown as in progress exactly while it has a live run. */
  ghost predicate StatesInStep(s: Db) {
    forall p | 0 <= p < |s.rfps| :: s.rfps[p].state == Received <==> HasLiveRun(s.runs, p)
  }

  /** The worker finishes while another run of its rfp is live. */
  ghost predicate IsLateFinish(s: Db, a: Action) {
    a.Finish? && a.worker in s.holds && s.holds[a.worker].Working?
    && exists r :: 0 <= r < |s.runs| && r != s.holds[a.worker].run && IsLive(s.runs[r])
         && s.holds[a.worker].job < |s.jobs| && s.runs[r].rfp == s.jobs[s.holds[a.worker].job].rfp
  }

  lemma SameLiveness(s: Db, s': Db, p: RfpId)
    requires |s.runs| == |s'.runs|
    requires forall r | 0 <= r < |s.runs| && s.runs[r].rfp == p ::
              s'.runs[r].rfp == p && IsLive(s'.runs[r]) == IsLive(s.runs[r])
    requires forall r | 0 <= r < |s.runs| && s.runs[r].rfp != p :: s'.runs[r].rfp != p
    ensures HasLiveRun(s.runs, p) == HasLiveRun(s'.runs, p)
  {
    if r :| 0 <= r < |s.runs| && s.runs[r].rfp == p && IsLive(s.runs[r]) {
      assert IsLive(s'.runs[r]);
    }
    if r :| 0 <= r < |s'.runs| && s'.runs[r].rfp == p && IsLive(s'.runs[r]) {
      assert IsLive(s.runs[r]);
    }
  }

  /** Steps that settle or start nothing. */
  lemma QuietStepKeepsStep(s: Db, a: Action)
    requires Inv(s) && StatesInStep(s) && Enabled(s, a)
    requires !a.Upload? && !a.Intake? && !a.Reprocess? && !a.GiveUp? && !a.Finish?
    ensures StatesInStep(Next(s, a))
  {
    var s' := Next(s, a);
    forall p | 0 <= p < |s'.rfps| ensures s'.rfps[p].state == Received <==> HasLiveRun(s'.runs, p) {
      SameLiveness(s, s', p);
      if a.Requeue? {
        assert HasLiveRun(s.runs, s.runs[a.run].rfp);
      }
    }
  }

  lemma StartKeepsStep(s: Db, a: Action)
    requires Inv(s) && StatesInStep(s) && Enabled(s, a) && (a.Upload? || a.Intake? || a.Reprocess?)
    ensures StatesInStep(Next(s, a))
  {
    var s' := Next(s, a);
    forall p | 0 <= p < |s'.rfps| ensures s'.rfps[p].state == Received <==> HasLiveRun(s'.runs, p) {
      assert forall r | 0 <= r < |s.runs| :: s'.runs[r] == s.runs[r];
      if CreatesRun(s, a) {
        assert IsLive(s'.runs[|s.runs|]);
      }
      if p < |s.rfps| && HasLiveRun(s.runs, p) {
        var r :| 0 <= r < |s.runs| && s.runs[r].rfp == p && IsLive(s.runs[r]);
        assert IsLive(s'.runs[r]);
      }
    }
  }

  lemma GiveUpKeepsStep(s: Db, run: RunId, now: int)
    requires Inv(s) && StatesInStep(s) && Enabled(s, GiveUp(run, now))
    ensures StatesInStep(GivenUp(s, run))
  {
    var s' := GivenUp(s, run);
    forall p | 0 <= p < |s'.rfps| ensures s'.rfps[p].state == Received <==> HasLiveRun(s'.runs, p) {
      if p == s.runs[run].rfp {
        forall r | 0 <= r < |s'.runs| && s'.runs[r].rfp == p ensures !IsLive(s'.runs[r]) {
          assert r == run || r < run || run < r;
        }
      } else {
        SameLiveness(s, s', p);
      }
    }
  }

  lemma FinishKeepsStepIff(s: Db, worker: Worker, ok: bool)
    requires Inv(s) && StatesInStep(s) && Enabled(s, Finish(worker, ok))
    ensures StatesInStep(Finished(s, worker, ok)) <==> !IsLateFinish(s, Finish(worker, ok))
  {
    var s', hold := Finished(s, worker, ok), s.holds[worker];
    var rfp := s.jobs[hold.job].rfp;
    forall p | 0 <= p < |s'.rfps| && p != rfp ensures s'.rfps[p].state == Received <==> HasLiveRun(s'.runs, p) {
      SameLiveness(s, s', p);
    }
    if r :| 0 <= r < |s.runs| && r != hold.run && IsLive(s.runs[r]) && s.runs[r].rfp == rfp {
      assert IsLive(s'.runs[r]);
      assert HasLiveRun(s'.runs, rfp);
    }
  }

  /** What the user is shown follows the runs at every step but one: a late finish is exactly the
      step that shows an rfp as settled while it is still being processed. */
  lemma StepKeepsStatesIff(s: Db, a: Action)
    requires Inv(s) && StatesInStep(s) && Enabled(s, a)
    ensures StatesInStep(Next(s, a)) <==> !IsLateFinish(s, a)
  {
    match a
    case Upload(_, _, _, _) => StartKeepsStep(s, a);
    case Intake(_, _, _) => StartKeepsStep(s, a);
    case Reprocess(_, _, _) => StartKeepsStep(s, a);
    case GiveUp(run, now) => GiveUpKeepsStep(s, run, now);
    case Finish(worker, ok) => FinishKeepsStepIff(s, worker, ok);
    case _ => QuietStepKeepsStep(s, a);
  }

  // ------------------------------------------- from ready to failed

  predicate IsFailingFinish(s: Db, a: Action, p: RfpId) {
    && a.Finish? && !a.ok && a.worker in s.holds && s.holds[a.worker].Working?
    && s.holds[a.worker].job < |s.jobs| && s.jobs[s.holds[a.worker].job].rfp == p
  }

  /** Exactly which step shows a ready rfp as failed: a worker that held its job finishes with a
      failure, or, if a live run of it was overlooked before, that run is given up. */
  lemma ReadyRfpFailsIff(s: Db, a: Action, p: RfpId)
    requires Inv(s) && Enabled(s, a) && p < |s.rfps| && s.rfps[p].state == RfpReady
    ensures p < |Next(s, a).rfps|
    ensures Next(s, a).rfps[p].state == RfpFailed <==>
            IsFailingFinish(s, a, p) || (a.GiveUp? && s.runs[a.run].rfp == p)
  {
  }

  /** While the shown states follow the runs, only the first of these is possible. */
  lemma ReadyRfpFailsInStepIff(s: Db, a: Action, p: RfpId)
    requires Inv(s) && StatesInStep(s) && Enabled(s, a) && p < |s.rfps| && s.rfps[p].state == RfpReady
    ensures p < |Next(s, a).rfps|
    ensures Next(s, a).rfps[p].state == RfpFailed <==> IsFailingFinish(s, a, p)
  {
    ReadyRfpFailsIff(s, a, p);
    if a.GiveUp? && s.runs[a.run].rfp == p {
      assert HasLiveRun(s.runs, p);
    }
  }

  /** A ready run fails exactly when a worker that captured it finishes with a failure. */
  lemma ReadyRunFailsIff(s: Db, a: Action, r: RunId)
    requires Inv(s) && Enabled(s, a) && r < |s.runs| && s.runs[r].stage == Ready
    ensures r < |Next(s, a).runs|
    ensures Next(s, a).runs[r].stage == Failed <==>
            a.Finish? && !a.ok && a.worker in s.holds && s.holds[a.worker].Working? && s.holds[a.worker].run == r
  {
  }

  // ----------------------------------------------- what the steps do

  /** Nothing but the named rows changed. */
  ghost predicate OtherRunsStay(s: Db, s': Db, r: RunId) {
    |s'.runs| == |s.runs| && forall q | 0 <= q < |s.runs| && q != r :: s'.runs[q] == s.runs[q]
  }

  ghost predicate OtherRfpsStay(s: Db, s': Db, p: RfpId) {
    |s'.rfps| == |s.rfps| && forall q | 0 <= q < |s.rfps| && q != p :: s'.rfps[q] == s.rfps[q]
  }

  ghost predicate OtherJobsStay(s: Db, s': Db, j: JobId) {
    |s'.jobs| == |s.jobs| && forall k | 0 <= k < |s.jobs| && k != j :: s'.jobs[k] == s.jobs[k]
  }

  /** After a run was given up, no job of its rfp is queued or processing, and nothing else changed. */
  ghost predicate IsGivenUp(s: Db, s': Db, run: RunId) {
    && run < |s.runs| && s.runs[run].rfp < |s.rfps| && s'.holds == s.holds
    && OtherRunsStay(s, s', run) && s'.runs[run] == s.runs[run].(stage := Failed)
    && OtherRfpsStay(s, s', s.runs[run].rfp)
    && s'.rfps[s.runs[run].rfp] == s.rfps[s.runs[run].rfp].(state := RfpFailed)
    && |s'.jobs| == |s.jobs|
    && forall j | 0 <= j < |s.jobs| ::
         if s.jobs[j].rfp == s.runs[run].rfp && (s.jobs[j].status == Queued || s.jobs[j].status == Processing)
         then s'.jobs[j] == s.jobs[j].(status := JobFailed) else s'.jobs[j] == s.jobs[j]
  }

  /** A run is given up after three attempts, ten minutes without a heartbeat. */
  lemma GiveUpSettlesAll(s: Db, run: RunId, now: int)
    requires Inv(s) && Enabled(s, GiveUp(run, now))
    ensures IsGivenUp(s, Next(s, GiveUp(run, now)), run)
    ensures s.runs[run].attempt >= 3 && s.runs[run].heartbeat < now - 600
  {
  }

  /** Of the first `n` jobs, none of the rfp is left to take. */
  ghost predicate NoJobToTake(s: Db, p: RfpId, n: nat) {
    && n <= |s.jobs|
    && forall j | 0 <= j < n && s.jobs[j].rfp == p :: s.jobs[j].status == Completed || s.jobs[j].status == JobFailed
  }

  predicate RequeuesRfp(s: Db, a: Action, p: RfpId) { a.Requeue? && a.run < |s.runs| && s.runs[a.run].rfp == p }

  lemma StepLeavesNoJob(s: Db, a: Action, p: RfpId, n: nat)
    requires Inv(s) && Enabled(s, a) && NoJobToTake(s, p, n) && !RequeuesRfp(s, a, p)
    ensures NoJobToTake(Next(s, a), p, n)
    ensures a.TakeJob? && a.job < n ==> s.jobs[a.job].rfp != p
  {
  }

  /** The step gives up a run of the rfp. */
  ghost predicate GivesUpRfp(s: Db, a: Action, p: RfpId) { a.GiveUp? && a.run < |s.runs| && s.runs[a.run].rfp == p }

  /** Of the jobs that an rfp had when its run was given up, none is ever taken again, unless a run of
      the rfp is queued again. */
  lemma {:induction false} GivenUpJobsAreDead(states: seq<Db>, actions: seq<Action>, i: nat, k: nat, p: RfpId)
    requires IsTrace(states, actions) && i < k <= |actions| && GivesUpRfp(states[i], actions[i], p)
    requires forall m | i < m < k :: !RequeuesRfp(states[m], actions[m], p)
    ensures NoJobToTake(states[k], p, |states[i].jobs|)
    ensures k < |actions| && actions[k].TakeJob? && actions[k].job < |states[i].jobs| ==>
              actions[k].job < |states[k].jobs| && states[k].jobs[actions[k].job].rfp != p
  {
    if i + 1 < k {
      GivenUpJobsAreDead(states, actions, i, k - 1, p);
    }
    DeadJobsStayDead(states, actions, i, k - 1, p);
    if k < |actions| && actions[k].TakeJob? {
      DeadJobIsNotTaken(states, actions, k, p, |states[i].jobs|);
    }
  }

  lemma {:induction false} DeadJobsStayDead(states: seq<Db>, actions: seq<Action>, i: nat, k: nat, p: RfpId)
    requires IsTrace(states, actions) && i <= k < |actions|
    requires if i == k then GivesUpRfp(states[i], actions[i], p)
             else NoJobToTake(states[k], p, |states[i].jobs|) && !RequeuesRfp(states[k], actions[k], p)
    ensures NoJobToTake(states[k + 1], p, |states[i].jobs|)
  {
    TraceInv(states, actions, k);
    assert Step(states[k], actions[k], states[k + 1]);
    if i == k {
      GiveUpSettlesAll(states[k], actions[k].run, actions[k].now);
    } else {
      StepLeavesNoJob(states[k], actions[k], p, |states[i].jobs|);
    }
  }

  lemma {:induction false} DeadJobIsNotTaken(states: seq<Db>, actions: seq<Action>, k: nat, p: RfpId, n: nat)
    requires IsTrace(states, actions) && k < |actions| && actions[k].TakeJob? && NoJobToTake(states[k], p, n)
    ensures actions[k].job < n ==> actions[k].job < |states[k].jobs| && states[k].jobs[actions[k].job].rfp != p
  {
    assert Step(states[k], actions[k], states[k + 1]);
  }

  /** A requeue counts an attempt and a heartbeat, shows the rfp as in progress, and queues a job of
      it: one that was not completed, or, if there is none, a new one at the priority of its origin. */
  lemma RequeueRevives(s: Db, run: RunId, now: int, pick: Option<JobId>)
    requires Inv(s) && Enabled(s, Requeue(run, now, pick))
    ensures s.runs[run].attempt < 3 && s.runs[run].heartbeat < now - 600
    ensures var s', rfp := Next(s, Requeue(run, now, pick)), s.runs[run].rfp;
            && s'.holds == s.holds && OtherRunsStay(s, s', run) && OtherRfpsStay(s, s', rfp)
            && s'.runs[run] == s.runs[run].(attempt := s.runs[run].attempt + 1, heartbeat := now)
            && s'.rfps[rfp] == s.rfps[rfp].(state := Received)
            && match pick
               case Some(j) =>
                 && OtherJobsStay(s, s', j) && s'.jobs[j] == s.jobs[j].(status := Queued)
                 && s.jobs[j].rfp == rfp && s.jobs[j].status != Completed
               case None =>
                 && s'.jobs == s.jobs + [Job(rfp, if s.rfps[rfp].origin == User then 10 else 1, Queued)]
                 && forall j | 0 <= j < |s.jobs| && s.jobs[j].rfp == rfp :: s.jobs[j].status == Completed
  {
  }

  /** A finish settles the worker's run, its job and the rfp of the job, and nothing else. */
  lemma FinishSettles(s: Db, worker: Worker, ok: bool)
    requires Inv(s) && Enabled(s, Finish(worker, ok))
    ensures var s', job, run := Next(s, Finish(worker, ok)), s.holds[worker].job, s.holds[worker].run;
            var rfp := s.jobs[job].rfp;
            && OtherRunsStay(s, s', run) && OtherJobsStay(s, s', job) && OtherRfpsStay(s, s', rfp)
            && s'.holds == s.holds - {worker}
            && s'.runs[run] == s.runs[run].(stage := if ok then Ready else Failed)
            && s'.jobs[job] == s.jobs[job].(status := if ok then Completed else JobFailed)
            && s'.rfps[rfp] == s.rfps[rfp].(state := if ok then RfpReady else RfpFailed)
  {
  }

  /** A worker takes a queued job that is not parked, of greatest priority and then the oldest. */
  lemma TakeIsFair(s: Db, worker: Worker, job: JobId, locked: set<JobId>)
    requires Inv(s) && Enabled(s, TakeJob(worker, job, locked))
    ensures var s' := Next(s, TakeJob(worker, job, locked));
            && s'.runs == s.runs && s'.rfps == s.rfps && OtherJobsStay(s, s', job)
            && s'.jobs[job] == s.jobs[job].(status := Processing) && s'.holds == s.holds[worker := Claimed(job)]
    ensures s.jobs[job].status == Queued && s.jobs[job].priority >= 1 && job !in locked
    ensures forall k | 0 <= k < |s.jobs| && k !in locked && s.jobs[k].status == Queued ::
              s.jobs[k].priority < s.jobs[job].priority || (s.jobs[k].priority == s.jobs[job].priority && job <= k)
              || s.jobs[k].priority == 0
  {
  }

  /** A new run is appended with its own queued job. */
  ghost predicate IsStarted(s: Db, s': Db, rfp: RfpId, attempt: nat, priority: nat, now: int) {
    && s'.runs == s.runs + [Run(rfp, Reading, attempt, now, |s.jobs|)]
    && s'.jobs == s.jobs + [Job(rfp, priority, Queued)] && s'.holds == s.holds
  }

  /** Rfp `p` is the account's latest unlocked one with the content. */
  ghost predicate IsLatestUnlocked(s: Db, p: RfpId, account: nat, content: nat) {
    && p < |s.rfps| && IsOpenCopy(s.rfps[p], account, content)
    && forall q | p < q < |s.rfps| :: !IsOpenCopy(s.rfps[q], account, content)
  }

  predicate IsOpenCopy(rfp: Rfp, account: nat, content: nat) {
    rfp.unlocked && rfp.account == account && rfp.content == content
  }

  /** An upload adds one rfp, open exactly if the account has unlocked the content before. If the latest
      such rfp is ready the new one is too, and nothing is queued; otherwise a first run is, parked for
      an account over its cap. */
  lemma UploadAdds(s: Db, account: nat, content: nat, overCap: bool, now: int)
    requires Inv(s)
    ensures var s', n := Next(s, Upload(account, content, overCap, now)), |s.rfps|;
            var open := exists p: RfpId :: IsLatestUnlocked(s, p, account, content);
            var copied := exists p: RfpId :: IsLatestUnlocked(s, p, account, content) && s.rfps[p].state == RfpReady;
            && s'.rfps == s.rfps + [Rfp(User, account, content, if copied then RfpReady else Received, open, true)]
            && if copied then s'.runs == s.runs && s'.jobs == s.jobs && s'.holds == s.holds
               else IsStarted(s, s', n, 1, if overCap then 0 else 10, now)
  {
    var prior := PriorCopy(s.rfps, account, content);
    if prior.Some? {
      assert IsLatestUnlocked(s, prior.value, account, content);
      forall p: RfpId | IsLatestUnlocked(s, p, account, content) ensures p == prior.value {
        assert IsUnlockedCopy(s.rfps[p], account, content) && IsOpenCopy(s.rfps[prior.value], account, content);
      }
    } else {
      forall p: RfpId ensures !IsLatestUnlocked(s, p, account, content) {
        assert p < |s.rfps| ==> !IsUnlockedCopy(s.rfps[p], account, content);
      }
    }
  }

  /** The sweep adds a closed rfp with a first run, at priority 1. */
  lemma IntakeAdds(s: Db, account: nat, content: nat, now: int)
    requires Inv(s)
    ensures var s' := Next(s, Intake(account, content, now));
            && s'.rfps == s.rfps + [Rfp(Sweep, account, content, Received, false, true)]
            && IsStarted(s, s', |s.rfps|, 1, 1, now)
  {
  }

  /** A reprocess needs the source and a settled latest run, and starts one more attempt, at the
      priority of the rfp's origin unless it is parked. */
  lemma ReprocessStarts(s: Db, p: RfpId, overCap: bool, now: int) returns (latest: RunId)
    requires Inv(s) && Enabled(s, Reprocess(p, overCap, now))
    ensures s.rfps[p].hasSource && latest < |s.runs| && s.runs[latest].rfp == p
    ensures (s.runs[latest].stage == Ready || s.runs[latest].stage == Failed)
            && forall r | latest < r < |s.runs| :: s.runs[r].rfp != p
    ensures var s' := Next(s, Reprocess(p, overCap, now));
            && OtherRfpsStay(s, s', p) && s'.rfps[p] == s.rfps[p].(state := Received)
            && IsStarted(s, s', p, s.runs[latest].attempt + 1,
                         if s.rfps[p].origin == Sweep then 1 else if overCap then 0 else 10, now)
  {
    latest := LatestRun(s.runs, p).value;
  }

  /** A parked job gets the priority of its rfp's origin. */
  lemma UnparkReleases(s: Db, job: JobId)
    requires Inv(s) && Enabled(s, Unpark(job))
    ensures s.jobs[job].status == Queued && s.jobs[job].priority == 0
    ensures var s' := Next(s, Unpark(job));
            && s'.runs == s.runs && s'.rfps == s.rfps && s'.holds == s.holds && OtherJobsStay(s, s', job)
            && s'.jobs[job] == s.jobs[job].(priority := if s.rfps[s.jobs[job].rfp].origin == Sweep then 1 else 10)
  {
  }

  // ------------------------------------------- a late finish, concretely

  const SHOWN := Rfp(User, 7, 5, Received, false, true)
  const WAITING := Job(0, PRIORITY_USER, Queued)
  const BUSY := Job(0, PRIORITY_USER, Processing)
  const DONE := Job(0, PRIORITY_USER, Completed)
  const FIRST := Run(0, Reading, 1, 0, 0)
  const REVIVED := Run(0, Reading, 2, 1000, 0)
  const FINISHED := Run(0, Ready, 2, 1000, 0)
  const SECOND := Run(0, Reading, 3, 2000, 1)

  /** The first worker only seemed dead; a second one finished its job, the user reprocessed, and
      now the first one finishes too. */
  function Deed(k: nat): Action {
    if k == 0 then Upload(7, 5, false, 0)
    else if k == 1 then TakeJob(1, 0, {})
    else if k == 2 then Capture(1)
    else if k == 3 then Requeue(0, 1000, Some(0))
    else if k == 4 then TakeJob(2, 0, {})
    else if k == 5 then Capture(2)
    else if k == 6 then Finish(2, true)
    else if k == 7 then Reprocess(0, false, 2000)
    else Finish(1, true)
  }

  function Story(k: nat): Db {
    if k == 0 then EMPTY_DB
    else if k == 1 then Db([FIRST], [WAITING], [SHOWN], map[])
    else if k == 2 then Db([FIRST], [BUSY], [SHOWN], map[1 := Claimed(0)])
    else if k == 3 then Db([FIRST], [BUSY], [SHOWN], map[1 := Working(0, 0)])
    else if k == 4 then Db([REVIVED], [WAITING], [SHOWN], map[1 := Working(0, 0)])
    else if k == 5 then Db([REVIVED], [BUSY], [SHOWN], map[1 := Working(0, 0), 2 := Claimed(0)])
    else if k == 6 then Db([REVIVED], [BUSY], [SHOWN], map[1 := Working(0, 0), 2 := Working(0, 0)])
    else if k == 7 then Db([FINISHED], [DONE], [SHOWN.(state := RfpReady)], map[1 := Working(0, 0)])
    else if k == 8 then Db([FINISHED, SECOND], [DONE, WAITING], [SHOWN], map[1 := Working(0, 0)])
    else Db([FINISHED, SECOND], [DONE, WAITING], [SHOWN.(state := RfpReady)], map[])
  }

  lemma StoryBegins(k: nat)
    requires k < 3
    ensures Step(Story(k), Deed(k), Story(k + 1))
  {
  }

  lemma StoryGoesOn(k: nat)
    requires 3 <= k < 6
    ensures Step(Story(k), Deed(k), Story(k + 1))
  {
  }

  lemma StoryEnds(k: nat)
    requires 6 <= k < 9
    ensures Step(Story(k), Deed(k), Story(k + 1))
  {
  }

  /** A reachable state that shows an rfp as ready while its latest run is live. */
  lemma LateFinishHappens() returns (states: seq<Db>, actions: seq<Action>)
    ensures IsTrace(states, actions)
    ensures var end := states[|actions|];
            |end.rfps| == 1 && end.rfps[0].state == RfpReady && |end.runs| == 2 && IsLive(end.runs[1])
  {
    states, actions := seq(10, k requires 0 <= k < 10 => Story(k)), seq(9, k requires 0 <= k < 9 => Deed(k));
    forall k: nat | k < 9 ensures Step(states[k], actions[k], states[k + 1]) {
      assert states[k] == Story(k) && states[k + 1] == Story(k + 1) && actions[k] == Deed(k);
      if k < 3 { StoryBegins(k); } else if k < 6 { StoryGoesOn(k); } else { StoryEnds(k); }
    }
  }

  const SPOILT := Db([FINISHED.(stage := Failed)], [DONE.(status := JobFailed)], [SHOWN.(state := RfpFailed)], map[])

  lemma SpoilingStep()
    ensures Step(Story(7), Finish(1, false), SPOILT)
  {
  }

  /** Such a step can happen: the second worker has published, and the first one, thought dead, then
      fails. No reprocess took place. */
  lemma ReadyRfpFails() returns (states: seq<Db>, actions: seq<Action>)
    ensures IsTrace(states, actions) && |actions| == 8 && forall a | a in actions :: !a.Reprocess?
    ensures |states[7].rfps| == |states[8].rfps| == |states[7].runs| == |states[8].runs| == 1
    ensures states[7].rfps[0].state == RfpReady && states[8].rfps[0].state == RfpFailed
    ensures states[7].runs[0].stage == Ready && states[8].runs[0].stage == Failed
  {
    states := seq(8, k requires 0 <= k < 8 => Story(k)) + [SPOILT];
    actions := seq(7, k requires 0 <= k < 7 => Deed(k)) + [Finish(1, false)];
    forall k: nat | k < 8 ensures Step(states[k], actions[k], states[k + 1]) {
      if k < 7 {
        assert states[k] == Story(k) && states[k + 1] == Story(k + 1) && actions[k] == Deed(k);
        if k < 3 { StoryBegins(k); } else if k < 6 { StoryGoesOn(k); } else { StoryEnds(k); }
      } else {
        SpoilingStep();
      }
    }
    forall a | a in actions ensures !a.Reprocess? {
      var k: nat :| k < 8 && actions[k] == a;
      assert k < 7 ==> a == Deed(k);
    }
  }
}
