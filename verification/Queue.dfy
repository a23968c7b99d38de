/** The queue's operations as the program performs them, row by row, each proved to be a step, or a
    run of steps, of the protocol in `Jobs`. */
module Queue {
  import opened Basics
  import opened Jobs

  /** `actions` lead from `s` to `s'`. */
  ghost predicate Leads(s: Db, actions: seq<Action>, s': Db)
    decreases |actions|
  {
    if actions == [] then s == s'
    else Enabled(s, actions[0]) && Leads(Next(s, actions[0]), actions[1..], s')
  }

  lemma {:induction false} LeadsOn(s: Db, actions: seq<Action>, s': Db, a: Action)
    requires Leads(s, actions, s') && Enabled(s', a)
    ensures Leads(s, actions + [a], Next(s', a))
    decreases |actions|
  {
    if actions == [] {
      assert [a][1..] == [];
    } else {
      LeadsOn(Next(s, actions[0]), actions[1..], s', a);
      assert (actions + [a])[1..] == actions[1..] + [a];
    }
  }

  lemma {:induction false} LeadsKeepsInv(s: Db, actions: seq<Action>, s': Db)
    requires Inv(s) && Leads(s, actions, s')
    ensures Inv(s')
    decreases |actions|
  {
    if actions != [] {
      StepKeepsInv(s, actions[0]);
      LeadsKeepsInv(Next(s, actions[0]), actions[1..], s');
    }
  }

  /** The loop over the stale runs has dealt with the first `i` of them. */
  ghost predicate RecoveredSoFar(was: seq<Run>, runs: seq<Run>, stale: seq<RunId>, locked: set<RunId>, now: int,
                                 i: nat)
  {
    && |runs| == |was| && i <= |stale|
    && (forall k | 0 <= k < |stale| :: stale[k] < |runs|)
    && (forall k, m | 0 <= k < m < |stale| :: stale[k] != stale[m])
    && (forall k | 0 <= k < i :: stale[k] in locked || !IsStale(runs[stale[k]], now))
    && (forall k | i <= k < |stale| :: IsStale(runs[stale[k]], now))
    && (forall r | 0 <= r < |runs| && (r !in stale || r in locked) :: runs[r] == was[r])
  }

  lemma RecoverTurn(was: seq<Run>, runs: seq<Run>, stale: seq<RunId>, locked: set<RunId>, now: int, i: nat)
    requires RecoveredSoFar(was, runs, stale, locked, now, i) && i < |stale|
    ensures stale[i] < |runs| && IsStale(runs[stale[i]], now)
    ensures stale[i] in locked ==> RecoveredSoFar(was, runs, stale, locked, now, i + 1)
  {
  }

  lemma RecoveredTurn(was: seq<Run>, runs: seq<Run>, runs': seq<Run>, stale: seq<RunId>, locked: set<RunId>, now: int,
                      i: nat)
    requires RecoveredSoFar(was, runs, stale, locked, now, i) && i < |stale| && stale[i] !in locked
    requires |runs'| == |runs| && !IsStale(runs'[stale[i]], now)
    requires forall r | 0 <= r < |runs| && r != stale[i] :: runs'[r] == runs[r]
    ensures RecoveredSoFar(was, runs', stale, locked, now, i + 1)
  {
  }

  class QueueDb {
    var runs: seq<Run>
    var jobs: seq<Job>
    var rfps: seq<Rfp>
    var holds: map<Worker, Hold>

    constructor ()
      ensures View() == EMPTY_DB
    {
      runs, jobs, rfps, holds := [], [], [], map[];
    }

    ghost function View(): Db
      reads this
    {
      Db(runs, jobs, rfps, holds)
    }

    /** `claim_next_job`: the claimable job of highest priority, the earliest of those. */
    method ClaimNextJob(worker: Worker, locked: set<JobId>) returns (claimed: Option<JobId>)
      requires worker !in holds
      modifies this`jobs, this`holds
      ensures claimed.None? ==> View() == old(View())
      ensures claimed.None? ==>
                forall j | 0 <= j < |jobs| && j !in locked :: jobs[j].status != Queued || jobs[j].priority == 0
      ensures claimed.Some? ==> Step(old(View()), TakeJob(worker, claimed.value, locked), View())
    {
      claimed := None;
      for k := 0 to |jobs|
        invariant claimed.None? ==> forall j | 0 <= j < k && j !in locked :: !IsClaimable(jobs[j])
        invariant claimed.Some? ==>
                    && claimed.value < k && claimed.value !in locked && IsClaimable(jobs[claimed.value])
                    && forall j | 0 <= j < k && j !in locked && IsClaimable(jobs[j]) :: Precedes(jobs, claimed.value, j)
      {
        if k !in locked && IsClaimable(jobs[k]) && (claimed.None? || jobs[k].priority > jobs[claimed.value].priority) {
          claimed := Some(k);
        }
      }
      if claimed.Some? {
        jobs := jobs[claimed.value := jobs[claimed.value].(status := Processing)];
        holds := holds[worker := Claimed(claimed.value)];
      }
    }

    /** `complete_job`. */
    method CompleteJob(job: JobId, ok: bool)
      requires job < |jobs|
      modifies this`jobs
      ensures jobs == SetStatus(old(jobs), job, if ok then Completed else JobFailed)
    {
      jobs := jobs[job := jobs[job].(status := if ok then Completed else JobFailed)];
    }

    method Enqueue(rfp: RfpId, priority: nat)
      modifies this`jobs
      ensures jobs == old(jobs) + [Job(rfp, priority, Queued)]
    {
      jobs := jobs + [Job(rfp, priority, Queued)];
    }

    /** The look-up after the claim was committed. */
    method CaptureRun(worker: Worker)
      requires worker in holds && holds[worker].Claimed? && Inv(View()) && JobsHaveRuns(View())
      modifies this`holds
      ensures Step(old(View()), Capture(worker), View())
    {
      ClaimedJobHasRun(View(), worker);
      var job := holds[worker].job;
      var run := LatestRun(runs, jobs[job].rfp);
      holds := holds[worker := Working(job, run.value)];
    }

    /** The second commit of `process_one_job`. */
    method FinishJob(worker: Worker, ok: bool)
      requires worker in holds && holds[worker].Working? && Inv(View())
      modifies this
      ensures Step(old(View()), Finish(worker, ok), View())
    {
      var job, run := holds[worker].job, holds[worker].run;
      var rfp := jobs[job].rfp;
      runs := runs[run := runs[run].(stage := if ok then Ready else Failed)];
      rfps := rfps[rfp := rfps[rfp].(state := if ok then RfpReady else RfpFailed)];
      CompleteJob(job, ok);
      holds := holds - {worker};
    }

    /** The jobs of the rfp that are queued or processing fail. */
    method FailActiveJobs(rfp: RfpId)
      modifies this`jobs
      ensures jobs == FailActive(old(jobs), rfp)
    {
      for j := 0 to |jobs|
        invariant |jobs| == |old(jobs)|
        invariant forall k | 0 <= k < j :: jobs[k] == FailActive(old(jobs), rfp)[k]
        invariant forall k | j <= k < |jobs| :: jobs[k] == old(jobs)[k]
      {
        if jobs[j].rfp == rfp && IsActive(jobs[j]) {
          jobs := jobs[j := jobs[j].(status := JobFailed)];
        }
      }
    }

    /** Any restartable job of the rfp: the query has no order. */
    method PickJob(rfp: RfpId) returns (pick: Option<JobId>)
      ensures pick.Some? ==> pick.value < |jobs| && IsRestartable(jobs[pick.value], rfp)
      ensures pick.None? ==> forall j | 0 <= j < |jobs| :: !IsRestartable(jobs[j], rfp)
    {
      if exists j :: 0 <= j < |jobs| && IsRestartable(jobs[j], rfp) {
        var j :| 0 <= j < |jobs| && IsRestartable(jobs[j], rfp);
        pick := Some(j);
      } else {
        pick := None;
      }
    }

    /** One stale run: it fails for good, or is queued again. */
    method RecoverRun(run: RunId, now: int) returns (ghost action: Action)
      requires WellFormed(View()) && run < |runs| && IsStale(runs[run], now)
      modifies this
      ensures IsRecovery(action) && action.run == run && action.now == now && Step(old(View()), action, View())
      ensures if old(runs)[run].attempt >= 3 then IsGivenUp(old(View()), View(), run) else action.Requeue?
    {
      var rfp := runs[run].rfp;
      if runs[run].attempt >= MAX_ATTEMPTS {
        action := GiveUp(run, now);
        runs := runs[run := runs[run].(stage := Failed)];
        rfps := rfps[rfp := rfps[rfp].(state := RfpFailed)];
        FailActiveJobs(rfp);
      } else {
        runs := runs[run := runs[run].(attempt := runs[run].attempt + 1, heartbeat := now)];
        rfps := rfps[rfp := rfps[rfp].(state := Received)];
        var pick := PickJob(rfp);
        action := Requeue(run, now, pick);
        if pick.Some? {
          jobs := jobs[pick.value := jobs[pick.value].(status := Queued)];
        } else {
          Enqueue(rfp, if rfps[rfp].origin == User then PRIORITY_USER else PRIORITY_SWEEP);
        }
      }
    }

    /** The runs of the stale query, each once. */
    ghost predicate AreStale(stale: seq<RunId>, now: int)
      reads this
    {
      && (forall i | 0 <= i < |stale| :: stale[i] < |runs| && IsStale(runs[stale[i]], now))
      && (forall i, j | 0 <= i < j < |stale| :: stale[i] != stale[j])
    }

    method StaleRuns(now: int) returns (stale: seq<RunId>)
      ensures AreStale(stale, now)
      ensures forall r | 0 <= r < |runs| && IsStale(runs[r], now) :: r in stale
    {
      stale := [];
      for r := 0 to |runs|
        invariant AreStale(stale, now) && forall i | 0 <= i < |stale| :: stale[i] < r
        invariant forall q | 0 <= q < r && IsStale(runs[q], now) :: q in stale
      {
        if IsStale(runs[r], now) {
          stale := stale + [r];
        }
      }
    }

    /** One turn of the loop over the stale runs. */
    method RecoverNext(ghost start: Db, ghost actions: seq<Action>, run: RunId, now: int)
      returns (ghost extended: seq<Action>)
      requires Inv(View()) && Leads(start, actions, View()) && run < |runs| && IsStale(runs[run], now)
      modifies this
      ensures Inv(View()) && Leads(start, extended, View()) && |runs| == |old(runs)| && !IsStale(runs[run], now)
      ensures forall r | 0 <= r < |runs| && r != run :: runs[r] == old(runs)[r]
    {
      ghost var before := View();
      ghost var action := RecoverRun(run, now);
      RecoveredIsFresh(before, action);
      LeadsOn(start, actions, before, action);
      StepKeepsInv(before, action);
      extended := actions + [action];
    }

    /** `requeue_stale_runs`: every stale run whose advisory lock is free is recovered, once. */
    method RequeueStaleRuns(now: int, lockedElsewhere: set<RunId>) returns (ghost actions: seq<Action>)
      requires Inv(View())
      modifies this
      ensures Leads(old(View()), actions, View()) && Inv(View())
      ensures forall r | r in lockedElsewhere && r < |old(runs)| :: r < |runs| && runs[r] == old(runs)[r]
      ensures forall r | 0 <= r < |runs| && r !in lockedElsewhere ::
                runs[r].stage == Ready || runs[r].stage == Failed || runs[r].heartbeat >= now - 600
    {
      var stale := StaleRuns(now);
      actions := [];
      for i := 0 to |stale|
        invariant Leads(old(View()), actions, View()) && Inv(View())
        invariant RecoveredSoFar(old(runs), runs, stale, lockedElsewhere, now, i)
      {
        RecoverTurn(old(runs), runs, stale, lockedElsewhere, now, i);
        ghost var before := runs;
        if stale[i] !in lockedElsewhere {
          actions := RecoverNext(old(View()), actions, stale[i], now);
          RecoveredTurn(old(runs), before, runs, stale, lockedElsewhere, now, i);
        }
      }
    }

    /** `reprioritize_capped_jobs`. */
    method ReprioritizeCappedJobs(overCap: set<RfpId>) returns (ghost actions: seq<Action>)
      requires Inv(View())
      modifies this`jobs
      ensures Leads(old(View()), actions, View()) && |jobs| == |old(jobs)|
      ensures forall j | 0 <= j < |jobs| :: var was := old(jobs)[j];
                jobs[j] == if was.status == Queued && was.priority == 0 && was.rfp !in overCap
                           then was.(priority := if rfps[was.rfp].origin == Sweep then 1 else 10) else was
    {
      actions := [];
      for j := 0 to |jobs|
        invariant Leads(old(View()), actions, View()) && |jobs| == |old(jobs)|
        invariant forall k | j <= k < |jobs| :: jobs[k] == old(jobs)[k]
        invariant forall k | 0 <= k < j :: var was := old(jobs)[k];
                    jobs[k] == if was.status == Queued && was.priority == PRIORITY_CAPPED && was.rfp !in overCap
                               then was.(priority := NewPriority(rfps[was.rfp].origin, false)) else was
      {
        if jobs[j].status == Queued && jobs[j].priority == PRIORITY_CAPPED && jobs[j].rfp !in overCap {
          LeadsOn(old(View()), actions, View(), Unpark(j));
          jobs := jobs[j := jobs[j].(priority := if rfps[jobs[j].rfp].origin == Sweep then PRIORITY_SWEEP
              else PRIORITY_USER)];
          actions := actions + [Unpark(j)];
        }
      }
    }

    /** The query for the account's latest unlocked copy. */
    method FindPriorCopy(account: nat, content: nat) returns (prior: Option<RfpId>)
      ensures prior == PriorCopy(rfps, account, content)
    {
      prior := None;
      for k := 0 to |rfps|
        invariant prior == PriorCopy(rfps[..k], account, content)
      {
        assert rfps[..k + 1][..k] == rfps[..k];
        if IsUnlockedCopy(rfps[k], account, content) { prior := Some(k); }
      }
      assert rfps[..|rfps|] == rfps;
    }

    /** `process_upload`: a file that is too large, of no known type or unreadable is refused; any
        other becomes a new rfp, with a run and a job unless a finished matrix is cloned. */
    method ProcessUpload(file: UploadedFile, maxBytes: nat, account: nat, overCap: bool, now: int)
      returns (reply: UploadReply)
      modifies this
      ensures reply == TooLarge <==> file.size > maxBytes
      ensures reply == UnsupportedType <==> file.size <= maxBytes && file.kind == Unknown
      ensures reply == Unreadable <==> file.size <= maxBytes && file.kind != Unknown && !file.readable
      ensures reply.Accepted? ==> reply.rfp == |old(rfps)|
      ensures !reply.Accepted? ==> View() == old(View())
      ensures reply.Accepted? ==> Step(old(View()), Upload(account, file.content, overCap, now), View())
    {
      if file.size > maxBytes { return TooLarge; }
      if file.kind == Unknown { return UnsupportedType; }
      if !file.readable { return Unreadable; }
      var content := file.content;
      var prior := FindPriorCopy(account, content);
      var rfp := |rfps|;
      var ready := prior.Some? && rfps[prior.value].state == RfpReady;
      rfps := rfps + [Rfp(User, account, content, Received, false, true)];
      if prior.Some? {
        rfps := rfps[rfp := rfps[rfp].(unlocked := true)];
      }
      if ready {
        rfps := rfps[rfp := rfps[rfp].(state := RfpReady)];
        assert rfps == old(rfps) + [Rfp(User, account, content, RfpReady, true, true)];
        return Accepted(rfp);
      }
      assert rfps == old(rfps) + [Rfp(User, account, content, Received, prior.Some?, true)];
      runs := runs + [Run(rfp, Reading, 1, now, |jobs|)];
      Enqueue(rfp, NewPriority(User, overCap));
      return Accepted(rfp);
    }

    /** The intake of an attachment by the sweep. */
    method TakeIn(account: nat, content: nat, now: int) returns (rfp: RfpId)
      modifies this
      ensures Step(old(View()), Intake(account, content, now), View()) && rfp == |old(rfps)|
    {
      rfp := |rfps|;
      rfps := rfps + [Rfp(Sweep, account, content, Received, false, true)];
      runs := runs + [Run(rfp, Reading, 1, now, |jobs|)];
      Enqueue(rfp, PRIORITY_SWEEP);
    }

    /** `reprocess`: gone without the source file, refused while the latest run is live or there is
        none. */
    method ReprocessRfp(rfp: RfpId, overCap: bool, now: int) returns (reply: ReprocessReply)
      requires rfp < |rfps|
      modifies this
      ensures reply == Gone <==> !old(rfps)[rfp].hasSource
      ensures reply == Started <==>
                old(rfps)[rfp].hasSource && exists r | 0 <= r < |old(runs)| :: IsLatestAndSettled(old(runs), r, rfp)
      ensures reply == Started ==> Step(old(View()), Reprocess(rfp, overCap, now), View())
      ensures reply != Started ==> View() == old(View())
    {
      if !rfps[rfp].hasSource { return Gone; }
      var prior := LatestRun(runs, rfp);
      assert forall r | 0 <= r < |runs| && IsLatestAndSettled(runs, r, rfp) :: prior == Some(r);
      assert prior.Some? && !IsLive(runs[prior.value]) ==> IsLatestAndSettled(runs, prior.value, rfp);
      if prior.None? || IsLive(runs[prior.value]) { return Refused; }
      runs := runs + [Run(rfp, Reading, runs[prior.value].attempt + 1, now, |jobs|)];
      rfps := rfps[rfp := rfps[rfp].(state := Received)];
      Enqueue(rfp, NewPriority(rfps[rfp].origin, overCap));
      return Started;
    }
  }

  /** The rfp's latest run is over. */
  ghost predicate IsLatestAndSettled(runs: seq<Run>, r: RunId, rfp: RfpId)
    requires r < |runs|
  {
    && runs[r].rfp == rfp && (forall q | r < q < |runs| :: runs[q].rfp != rfp)
    && (runs[r].stage == Ready || runs[r].stage == Failed)
  }

  datatype FileKind = Pdf | WordFile | Zip | Unknown

  /** What the inspection of the file found out. */
  datatype UploadedFile = UploadedFile(size: nat, kind: FileKind, readable: bool, content: nat)

  datatype UploadReply = TooLarge | UnsupportedType | Unreadable | Accepted(rfp: RfpId)

  datatype ReprocessReply = Gone | Refused | Started

  /** A recovery touches one run and makes it fresh. */
  lemma RecoveredIsFresh(s: Db, a: Action)
    requires Enabled(s, a) && IsRecovery(a)
    ensures var s' := Next(s, a);
            && |s'.runs| == |s.runs| && !IsStale(s'.runs[a.run], a.now)
            && forall r | 0 <= r < |s.runs| && r != a.run :: s'.runs[r] == s.runs[r]
  {
  }
}
