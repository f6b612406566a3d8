/** The status rewrites of agent runs and their jobs: waiting for a proposal decision becomes a state
    of its own, and on the way back a failure.  Each direction is two UPDATEs whose order matters,
    because the second one looks at what the first one left. */
module StatusMigration {
  import opened Basics

  type RunId = string
  type JobId = string
  type ProposalId = string
  type Workspace = string
  type Time = int

  const WAIT_STATUS: string := "waiting_for_proposal_decision"
  const WAIT_PROBLEM: string := "agent.downgraded_proposal_wait"

  datatype Run = Run(
    workspace: Workspace,
    job: JobId,
    status: string,
    outputMessage: Option<string>,
    proposalRefs: nat,
    usage: Option<string>,
    problem: Option<string>,
    pendingApproval: Option<string>,
    activeToolCall: Option<string>,
    revision: int)

  datatype Job = Job(
    workspace: Workspace,
    status: string,
    phase: string,
    completedUnits: int,
    totalUnits: Option<int>,
    progressUnit: string,
    resultRefs: nat,
    problem: Option<string>,
    startedAt: Option<Time>,
    finishedAt: Option<Time>,
    revision: int)

  datatype Proposal = Proposal(workspace: Workspace, run: Option<RunId>, pending: bool)

  /** The hash that makes the ids of tool invocations. */
  datatype Env = Env(md5: ProposalId -> string)

  datatype Tables = Tables(runs: map<RunId, Run>, jobs: map<JobId, Job>, proposals: map<ProposalId, Proposal>)

  // ---------------------------------------------------------------- constraints

  /** The CHECKs on agent.jobs: timeline, progress, result and problem. */
  predicate JobOk(j: Job) {
    && (|| (j.status == "queued" && j.startedAt.None? && j.finishedAt.None?)
        || (j.status == "running" && j.startedAt.Some? && j.finishedAt.None?)
        || (j.status in {"succeeded", "failed"} && j.startedAt.Some? && j.finishedAt.Some?)
        || (j.status == "cancelled" && j.finishedAt.Some?)
        || (j.status == "expired" && j.startedAt.None? && j.finishedAt.Some?))
    && Trimmed(j.phase) && 1 <= |j.phase| <= 80
    && j.completedUnits >= 0
    && (j.totalUnits.Some? ==> j.totalUnits.value >= 0 && j.completedUnits <= j.totalUnits.value)
    && j.progressUnit in {"items", "bytes", "pages", "steps", "unknown"}
    && j.resultRefs <= 50 && (j.status == "succeeded" || j.resultRefs == 0)
    && (j.status == "failed" <==> j.problem.Some?)
  }

  /** The CHECKs on agent.runs that both revisions share and that a status rewrite could break. */
  predicate RunShapeOk(r: Run) {
    && r.proposalRefs <= 100
    && (r.status == "waiting_for_approval" ==>
          r.pendingApproval.Some? && r.activeToolCall.Some? && r.problem.None?)
    && (r.status != "waiting_for_approval" ==> r.pendingApproval.None? && r.activeToolCall.None?)
    && (r.status == "failed" <==> r.problem.Some?)
  }

  /** The CHECKs on agent.runs before the upgrade and after the downgrade. */
  predicate OldRunOk(r: Run) {
    && RunShapeOk(r)
    && r.status in {"queued", "running", "waiting_for_approval", "succeeded", "failed", "cancelled"}
    && (r.status == "succeeded" <==> r.outputMessage.Some?)
    && (r.status in {"succeeded", "failed", "cancelled"} || (r.proposalRefs == 0 && r.usage.None?))
  }

  /** The CHECKs on agent.runs after the upgrade. */
  predicate NewRunOk(r: Run) {
    && RunShapeOk(r)
    && r.status in {"queued", "running", "waiting_for_approval", WAIT_STATUS, "succeeded", "failed", "cancelled"}
    && (r.status in {"succeeded", WAIT_STATUS} <==> r.outputMessage.Some?)
    && (r.status in {"succeeded", "failed", "cancelled", WAIT_STATUS} || (r.proposalRefs == 0 && r.usage.None?))
  }

  /** A run has a job of its own, in its Workspace. */
  ghost predicate Linked(t: Tables) {
    && (forall r | r in t.runs :: t.runs[r].job in t.jobs && t.jobs[t.runs[r].job].workspace == t.runs[r].workspace)
    && (forall r, s | r in t.runs && s in t.runs && r != s :: t.runs[r].job != t.runs[s].job)
  }

  /** The statuses of a run and of its job say the same; a run that waits has a running job. */
  predicate Matches(run: string, job: string) {
    if run in {"waiting_for_approval", WAIT_STATUS} then job == "running" else job == run
  }

  ghost predicate Aligned(t: Tables) {
    forall r | r in t.runs :: t.runs[r].job in t.jobs && Matches(t.runs[r].status, t.jobs[t.runs[r].job].status)
  }

  ghost predicate OldOk(t: Tables) {
    && Linked(t) && Aligned(t)
    && (forall r | r in t.runs :: IsOpaqueId(r))
    && (forall r | r in t.runs :: OldRunOk(t.runs[r]))
    && (forall j | j in t.jobs :: JobOk(t.jobs[j]))
  }

  ghost predicate NewOk(t: Tables) {
    && Linked(t) && Aligned(t)
    && (forall r | r in t.runs :: IsOpaqueId(r))
    && (forall r | r in t.runs :: NewRunOk(t.runs[r]))
    && (forall j | j in t.jobs :: JobOk(t.jobs[j]))
  }

  // ---------------------------------------------------------------- upgrade

  predicate HasPending(t: Tables, id: RunId)
    requires id in t.runs
  {
    exists p | p in t.proposals ::
      t.proposals[p].pending && t.proposals[p].run == Some(id) && t.proposals[p].workspace == t.runs[id].workspace
  }

  /** A succeeded run whose proposal still waits for a decision. */
  predicate Undecided(t: Tables, id: RunId) {
    id in t.runs && t.runs[id].status == "succeeded" && HasPending(t, id)
  }

  /** The job UPDATE joins this job with such a run. */
  predicate Reopens(t: Tables, id: JobId) {
    && id in t.jobs && t.jobs[id].status == "succeeded"
    && exists r | r in t.runs :: t.runs[r].job == id && t.runs[r].workspace == t.jobs[id].workspace && Undecided(t, r)
  }

  function ReopenedJob(j: Job): Job {
    j.(status := "running", phase := WAIT_STATUS, completedUnits := 0, totalUnits := None, progressUnit := "steps",
       resultRefs := 0, finishedAt := None, revision := j.revision + 1)
  }

  function WaitingRun(r: Run): Run {
    r.(status := WAIT_STATUS, revision := r.revision + 1)
  }

  /** Every proposal of a run becomes a tool invocation with ordinal 1 and an id made from the MD5 of its
      own.  UNIQUE (workspace_id, run_id, ordinal) lets a run have only one proposal, and the primary
      key no two proposals with one MD5. */
  predicate InvocationsCollide(e: Env, t: Tables) {
    exists p, q | p in t.proposals && q in t.proposals ::
      && p != q && t.proposals[p].run.Some? && t.proposals[q].run.Some?
      && (SameRun(t, p, q) || e.md5(p) == e.md5(q))
  }

  /** Where the hash tells the ids of the table apart, only two proposals of one run collide. */
  lemma CollideIff(e: Env, t: Tables)
    requires forall p, q | p in t.proposals && q in t.proposals && p != q :: e.md5(p) != e.md5(q)
    ensures InvocationsCollide(e, t) <==>
      exists p, q | p in t.proposals && q in t.proposals :: p != q && SameRun(t, p, q)
  {
    if p, q :| p in t.proposals && q in t.proposals && p != q && SameRun(t, p, q) {
      assert t.proposals[p].run.Some? && t.proposals[q].run.Some?;
    }
  }

  /** A row of agent.tool_invocations, as far as its keys go. */
  datatype Invocation = Invocation(id: string, workspace: Workspace, run: RunId, ordinal: int)

  /** The rows that the INSERT makes of the proposals that have a run. */
  function InvocationRows(e: Env, t: Tables): map<ProposalId, Invocation> {
    map p | p in t.proposals && t.proposals[p].run.Some? ::
      Invocation("toolinv_" + e.md5(p), t.proposals[p].workspace, t.proposals[p].run.value, 1)
  }

  /** PRIMARY KEY (id) and UNIQUE (workspace_id, run_id, ordinal) */
  ghost predicate KeysUnique(rows: map<ProposalId, Invocation>) {
    forall p, q | p in rows && q in rows && p != q ::
      && rows[p].id != rows[q].id
      && (rows[p].workspace, rows[p].run, rows[p].ordinal) != (rows[q].workspace, rows[q].run, rows[q].ordinal)
  }

  /** The collision is that of the inserted rows on their keys. */
  lemma CollideOnKeys(e: Env, t: Tables)
    ensures InvocationsCollide(e, t) <==> !KeysUnique(InvocationRows(e, t))
  {
    var rows := InvocationRows(e, t);
    forall p, q | p in rows && q in rows
      ensures rows[p].id == rows[q].id <==> e.md5(p) == e.md5(q)
      ensures (rows[p].workspace, rows[p].run, rows[p].ordinal) == (rows[q].workspace, rows[q].run, rows[q].ordinal)
         <==> SameRun(t, p, q)
    {
      SameTail("toolinv_", e.md5(p), e.md5(q));
    }
    if p, q :| p in rows && q in rows && p != q && (SameRun(t, p, q) || e.md5(p) == e.md5(q)) {
      assert InvocationsCollide(e, t);
    }
    if InvocationsCollide(e, t) {
      var p, q :| p in t.proposals && q in t.proposals && p != q
               && t.proposals[p].run.Some? && t.proposals[q].run.Some?
               && (SameRun(t, p, q) || e.md5(p) == e.md5(q));
      assert p in rows && q in rows;
    }
  }

  predicate SameRun(t: Tables, p: ProposalId, q: ProposalId)
    requires p in t.proposals && q in t.proposals
  {
    && t.proposals[p].run.Some? && t.proposals[p].run == t.proposals[q].run
    && t.proposals[p].workspace == t.proposals[q].workspace
  }

  function Upgraded(t: Tables): Tables {
    t.(jobs := map j | j in t.jobs :: if Reopens(t, j) then ReopenedJob(t.jobs[j]) else t.jobs[j],
       runs := map r | r in t.runs :: if Undecided(t, r) then WaitingRun(t.runs[r]) else t.runs[r])
  }

  /** Where run and job agree, the job of a run is reopened exactly when the run is undecided. */
  lemma ReopensIff(t: Tables, r: RunId)
    requires Linked(t) && Aligned(t) && r in t.runs
    ensures Reopens(t, t.runs[r].job) <==> Undecided(t, r)
  {
    if Reopens(t, t.runs[r].job) {
      var s :| s in t.runs && t.runs[s].job == t.runs[r].job && Undecided(t, s);
      assert s == r;
    }
  }

  lemma ReopenedJobOk(j: Job)
    requires JobOk(j) && j.status == "succeeded"
    ensures JobOk(ReopenedJob(j))
  {
  }

  lemma WaitingRunOk(r: Run)
    requires OldRunOk(r)
    ensures NewRunOk(r) && r.status != WAIT_STATUS
    ensures r.status == "succeeded" ==> NewRunOk(WaitingRun(r))
  {
  }

  /** The run keeps its job, in its Workspace, and the two match. */
  ghost predicate KeepsRow(t: Tables, t': Tables, r: RunId)
    requires r in t.runs
  {
    && r in t'.runs && t'.runs[r].job == t.runs[r].job && t'.runs[r].job in t'.jobs
    && t'.jobs[t'.runs[r].job].workspace == t'.runs[r].workspace
    && Matches(t'.runs[r].status, t'.jobs[t'.runs[r].job].status)
  }

  lemma StaysAligned(t: Tables, t': Tables)
    requires Linked(t) && t'.runs.Keys == t.runs.Keys && forall r | r in t.runs :: KeepsRow(t, t', r)
    ensures Linked(t') && Aligned(t')
  {
    hide Matches;
    forall r | r in t'.runs
      ensures t'.runs[r].job in t'.jobs && t'.jobs[t'.runs[r].job].workspace == t'.runs[r].workspace
      ensures Matches(t'.runs[r].status, t'.jobs[t'.runs[r].job].status)
    {
      assert KeepsRow(t, t', r);
    }
    forall r, s | r in t'.runs && s in t'.runs && r != s ensures t'.runs[r].job != t'.runs[s].job {
      assert KeepsRow(t, t', r) && KeepsRow(t, t', s);
    }
  }

  /** A run waits for a proposal decision exactly when its job was moved back to running, which is
      exactly when it had succeeded with an undecided proposal. */
  lemma WaitsIffReopened(t: Tables, r: RunId)
    requires Linked(t) && Aligned(t) && r in t.runs && OldRunOk(t.runs[r])
    ensures NewRunOk(Upgraded(t).runs[r]) && KeepsRow(t, Upgraded(t), r)
    ensures Upgraded(t).runs[r].status == WAIT_STATUS <==> Undecided(t, r)
    ensures Upgraded(t).runs[r].status == WAIT_STATUS <==>
      t.jobs[t.runs[r].job].status == "succeeded" && Upgraded(t).jobs[t.runs[r].job].status == "running"
  {
    ReopensIff(t, r);
    WaitingRunOk(t.runs[r]);
    OwnMatch(t, r);
    hide NewRunOk, OldRunOk, Linked, Aligned, Reopens;
  }

  /** What the upgrade writes: a run that had succeeded with a pending proposal waits, and its job runs again
      without progress or results; any other run stays as it was, and so does its job. */
  lemma UpgradeWrites(t: Tables, r: RunId)
    requires Linked(t) && Aligned(t) && r in t.runs
    ensures r in Upgraded(t).runs && t.runs[r].job in t.jobs && t.runs[r].job in Upgraded(t).jobs
    ensures var run, job := t.runs[r], t.jobs[t.runs[r].job];
      if run.status == "succeeded"
         && exists p :: p in t.proposals && t.proposals[p] == Proposal(run.workspace, Some(r), true)
      then
        && Upgraded(t).runs[r] == run.(status := "waiting_for_proposal_decision", revision := run.revision + 1)
        && Upgraded(t).jobs[run.job] == job.(
             status := "running", phase := "waiting_for_proposal_decision", completedUnits := 0, totalUnits := None,
             progressUnit := "steps", resultRefs := 0, finishedAt := None, revision := job.revision + 1)
      else Upgraded(t).runs[r] == run && Upgraded(t).jobs[run.job] == job
  {
    ReopensIff(t, r);
    OwnMatch(t, r);
    assert HasPending(t, r) <==>
      exists p :: p in t.proposals && t.proposals[p] == Proposal(t.runs[r].workspace, Some(r), true);
    assert Undecided(t, r) <==> t.runs[r].status == "succeeded" && HasPending(t, r);
    hide Linked, Aligned, Reopens, Undecided, Matches;
  }

  /** What the downgrade writes: a waiting run fails without results, and so does its job; any other run stays
      as it was, and so does its job. */
  lemma DowngradeWrites(t: Tables, now: Time, r: RunId)
    requires Linked(t) && Aligned(t) && r in t.runs
    ensures r in Downgraded(t, now).runs && t.runs[r].job in t.jobs && t.runs[r].job in Downgraded(t, now).jobs
    ensures var run, job := t.runs[r], t.jobs[t.runs[r].job];
      if run.status == "waiting_for_proposal_decision" then
        && Downgraded(t, now).runs[r] == run.(
             status := "failed", outputMessage := None, proposalRefs := 0, usage := None,
             problem := Some("agent.downgraded_proposal_wait"), revision := run.revision + 1)
        && Downgraded(t, now).jobs[run.job] == job.(
             status := "failed", phase := "failed", completedUnits := 0, totalUnits := None, progressUnit := "steps",
             resultRefs := 0, problem := Some("agent.downgraded_proposal_wait"), finishedAt := Some(now),
             revision := job.revision + 1)
      else Downgraded(t, now).runs[r] == run && Downgraded(t, now).jobs[run.job] == job
  {
    AbandonsIff(t, r);
    OwnMatch(t, r);
    hide Linked, Aligned, Abandons, Matches;
  }

  /** Jobs of no run, and the proposals, are left alone in both directions; no row comes or goes. */
  lemma OthersStay(t: Tables, now: Time, j: JobId)
    requires j in t.jobs && forall r | r in t.runs :: t.runs[r].job != j
    ensures j in Upgraded(t).jobs && Upgraded(t).jobs[j] == t.jobs[j]
    ensures j in Downgraded(t, now).jobs && Downgraded(t, now).jobs[j] == t.jobs[j]
    ensures Upgraded(t).proposals == Downgraded(t, now).proposals == t.proposals
    ensures Upgraded(t).jobs.Keys == Downgraded(t, now).jobs.Keys == t.jobs.Keys
    ensures Upgraded(t).runs.Keys == Downgraded(t, now).runs.Keys == t.runs.Keys
  {
    hide ReopenedJob, AbandonedJob, WaitingRun, Undecided;
    assert forall r | r in AbandonRuns(t.runs) :: AbandonRuns(t.runs)[r].job == t.runs[r].job;
  }

  lemma OwnMatch(t: Tables, r: RunId)
    requires Linked(t) && Aligned(t) && r in t.runs
    ensures t.runs[r].job in t.jobs && Matches(t.runs[r].status, t.jobs[t.runs[r].job].status)
    ensures t.jobs[t.runs[r].job].workspace == t.runs[r].workspace
  {
  }

  lemma UpgradedJobOk(t: Tables, j: JobId)
    requires j in t.jobs && JobOk(t.jobs[j])
    ensures JobOk(Upgraded(t).jobs[j])
  {
    if Reopens(t, j) {
      ReopenedJobOk(t.jobs[j]);
    }
    hide JobOk;
  }

  lemma UpgradedRows(t: Tables)
    requires Linked(t) && Aligned(t) && forall r | r in t.runs :: OldRunOk(t.runs[r])
    ensures Upgraded(t).runs.Keys == t.runs.Keys
    ensures forall r | r in t.runs :: KeepsRow(t, Upgraded(t), r) && NewRunOk(Upgraded(t).runs[r])
  {
    assert Upgraded(t).runs.Keys == t.runs.Keys;
    hide Upgraded, NewRunOk, OldRunOk, KeepsRow, Linked, Aligned;
    forall r | r in t.runs ensures KeepsRow(t, Upgraded(t), r) && NewRunOk(Upgraded(t).runs[r]) {
      WaitsIffReopened(t, r);
    }
  }

  lemma UpgradedJobs(t: Tables)
    requires forall j | j in t.jobs :: JobOk(t.jobs[j])
    ensures forall j | j in Upgraded(t).jobs :: JobOk(Upgraded(t).jobs[j])
  {
    assert Upgraded(t).jobs.Keys == t.jobs.Keys;
    hide Upgraded, JobOk;
    forall j | j in t.jobs ensures JobOk(Upgraded(t).jobs[j]) {
      UpgradedJobOk(t, j);
    }
  }

  /** The upgrade keeps the two tables aligned and meets every CHECK. */
  lemma UpgradeKeepsAlignment(t: Tables)
    requires OldOk(t)
    ensures NewOk(Upgraded(t))
  {
    hide Upgraded, JobOk, NewRunOk, OldRunOk, KeepsRow, Linked, Aligned;
    UpgradedRows(t);
    UpgradedJobs(t);
    StaysAligned(t, Upgraded(t));
  }

  /** The order of the UPDATEs matters: had the runs gone first, no job would have followed. */
  lemma RunsFirstWouldStrandJobs(t: Tables, r: RunId)
    requires OldOk(t) && Undecided(t, r)
    ensures var runsFirst := t.(runs := Upgraded(t).runs);
      !Reopens(runsFirst, t.runs[r].job) && !Matches(runsFirst.runs[r].status, runsFirst.jobs[t.runs[r].job].status)
  {
    var runsFirst := t.(runs := Upgraded(t).runs);
    forall s | s in runsFirst.runs && runsFirst.runs[s].job == t.runs[r].job ensures !Undecided(runsFirst, s) {
      assert s == r;
    }
  }

  const UNDECIDED_RUN: Run :=
    Run("workspace_1", "job_00001", "succeeded", Some("message_1"), 2, None, None, None, None, 1)

  const ITS_JOB: Job :=
    Job("workspace_1", "succeeded", "done", 1, Some(1), "steps", 0, None, Some(0), Some(1), 1)

  /** A run that succeeded with its job, and two proposals of it. */
  function TwoProposals(): Tables {
    Tables(map["run_00001" := UNDECIDED_RUN],
           map["job_00001" := ITS_JOB],
           map["prop_0001" := Proposal("workspace_1", Some("run_00001"), true),
               "prop_0002" := Proposal("workspace_1", Some("run_00001"), true)])
  }

  lemma TwoProposalsRowsAreOk()
    ensures IsOpaqueId("run_00001") && OldRunOk(UNDECIDED_RUN) && JobOk(ITS_JOB)
  {
    assert "run_00001" == ['r', 'u', 'n', '_', '0', '0', '0', '0', '1'];
    assert "done"[0] == 'd' && "done"[3] == 'e';
  }

  lemma TwoProposalsAreOk()
    ensures OldOk(TwoProposals())
  {
    TwoProposalsRowsAreOk();
    hide IsOpaqueId, OldRunOk, JobOk;
  }

  /** Such tables exist: aligned, with the CHECKs in force, and the upgrade aborts on them under any hash. */
  lemma TwoProposalsCollide(e: Env)
    ensures OldOk(TwoProposals()) && InvocationsCollide(e, TwoProposals())
  {
    TwoProposalsAreOk();
    hide OldOk;
    var t := TwoProposals();
    assert "prop_0001"[8] != "prop_0002"[8];
    assert "prop_0001" in t.proposals && "prop_0002" in t.proposals && SameRun(t, "prop_0001", "prop_0002");
  }

  // ---------------------------------------------------------------- downgrade

  function AbandonedRun(r: Run): Run {
    r.(status := "failed", outputMessage := None, proposalRefs := 0, usage := None, problem := Some(WAIT_PROBLEM),
       revision := r.revision + 1)
  }

  function AbandonedJob(j: Job, now: Time): Job {
    j.(status := "failed", phase := "failed", completedUnits := 0, totalUnits := None, progressUnit := "steps",
       resultRefs := 0, problem := Some(WAIT_PROBLEM), finishedAt := Some(now), revision := j.revision + 1)
  }

  function AbandonRuns(runs: map<RunId, Run>): map<RunId, Run> {
    map r | r in runs :: if runs[r].status == WAIT_STATUS then AbandonedRun(runs[r]) else runs[r]
  }

  /** The job UPDATE joins this job with a run that failed for want of the waiting state. */
  predicate Abandons(runs: map<RunId, Run>, jobs: map<JobId, Job>, id: JobId) {
    && id in jobs && jobs[id].status == "running"
    && exists r | r in runs ::
         && runs[r].job == id && runs[r].workspace == jobs[id].workspace
         && runs[r].status == "failed" && runs[r].problem == Some(WAIT_PROBLEM)
  }

  function Downgraded(t: Tables, now: Time): Tables {
    var runs := AbandonRuns(t.runs);
    t.(runs := runs,
       jobs := map j | j in t.jobs :: if Abandons(runs, t.jobs, j) then AbandonedJob(t.jobs[j], now) else t.jobs[j])
  }

  /** A run that failed in an earlier downgrade has a failed job, so only the jobs of the runs
      abandoned now are taken. */
  lemma AbandonsIff(t: Tables, r: RunId)
    requires Linked(t) && Aligned(t) && r in t.runs
    ensures Abandons(AbandonRuns(t.runs), t.jobs, t.runs[r].job) <==> t.runs[r].status == WAIT_STATUS
  {
    var runs := AbandonRuns(t.runs);
    if Abandons(runs, t.jobs, t.runs[r].job) {
      var s :| s in runs && runs[s].job == t.runs[r].job && runs[s].status == "failed";
      assert s == r;
    }
    if t.runs[r].status == WAIT_STATUS {
      assert runs[r].problem == Some(WAIT_PROBLEM) && runs[r].job == t.runs[r].job;
    }
  }

  lemma AbandonedJobOk(j: Job, now: Time)
    requires JobOk(j) && j.status == "running"
    ensures JobOk(AbandonedJob(j, now))
  {
  }

  lemma AbandonedRunOk(r: Run)
    requires NewRunOk(r)
    ensures r.status != WAIT_STATUS ==> OldRunOk(r)
    ensures r.status == WAIT_STATUS ==> OldRunOk(AbandonedRun(r))
  {
  }

  /** Exactly the waiting runs fail, each together with its job; no other run or job of a run changes. */
  lemma FailsIffWaiting(t: Tables, now: Time, r: RunId)
    requires Linked(t) && Aligned(t) && r in t.runs && NewRunOk(t.runs[r])
    ensures OldRunOk(Downgraded(t, now).runs[r]) && KeepsRow(t, Downgraded(t, now), r)
    ensures
      if t.runs[r].status == WAIT_STATUS
      then Downgraded(t, now).runs[r].status == "failed" && Downgraded(t, now).jobs[t.runs[r].job].status == "failed"
      else && Downgraded(t, now).runs[r] == t.runs[r]
           && Downgraded(t, now).jobs[t.runs[r].job] == t.jobs[t.runs[r].job]
  {
    AbandonsIff(t, r);
    AbandonedRunOk(t.runs[r]);
    OwnMatch(t, r);
    hide NewRunOk, OldRunOk, Linked, Aligned, Abandons;
  }

  lemma DowngradedJobOk(t: Tables, now: Time, j: JobId)
    requires j in t.jobs && JobOk(t.jobs[j])
    ensures JobOk(Downgraded(t, now).jobs[j])
  {
    if t.jobs[j].status == "running" {
      AbandonedJobOk(t.jobs[j], now);
    }
    hide JobOk, AbandonedJob;
  }

  lemma DowngradedRows(t: Tables, now: Time)
    requires Linked(t) && Aligned(t) && forall r | r in t.runs :: NewRunOk(t.runs[r])
    ensures Downgraded(t, now).runs.Keys == t.runs.Keys
    ensures forall r | r in t.runs :: KeepsRow(t, Downgraded(t, now), r) && OldRunOk(Downgraded(t, now).runs[r])
  {
    assert Downgraded(t, now).runs.Keys == t.runs.Keys;
    hide Downgraded, NewRunOk, OldRunOk, KeepsRow, Linked, Aligned;
    forall r | r in t.runs ensures KeepsRow(t, Downgraded(t, now), r) && OldRunOk(Downgraded(t, now).runs[r]) {
      FailsIffWaiting(t, now, r);
    }
  }

  lemma DowngradedJobs(t: Tables, now: Time)
    requires forall j | j in t.jobs :: JobOk(t.jobs[j])
    ensures forall j | j in Downgraded(t, now).jobs :: JobOk(Downgraded(t, now).jobs[j])
  {
    assert Downgraded(t, now).jobs.Keys == t.jobs.Keys;
    hide Downgraded, JobOk;
    forall j | j in t.jobs ensures JobOk(Downgraded(t, now).jobs[j]) {
      DowngradedJobOk(t, now, j);
    }
  }

  /** The downgrade keeps the two tables aligned and meets every CHECK of the old revision. */
  lemma DowngradeKeepsAlignment(t: Tables, now: Time)
    requires NewOk(t)
    ensures OldOk(Downgraded(t, now))
  {
    hide Downgraded, JobOk, NewRunOk, OldRunOk, KeepsRow, Linked, Aligned;
    DowngradedRows(t, now);
    DowngradedJobs(t, now);
    StaysAligned(t, Downgraded(t, now));
  }

  /** Going up and down again changes nothing but the undecided runs, which have failed with their jobs. */
  lemma RoundTrip(t: Tables, now: Time, r: RunId)
    requires OldOk(t) && r in t.runs
    ensures var back := Downgraded(Upgraded(t), now);
      && r in back.runs && t.runs[r].job in back.jobs
      && (if Undecided(t, r)
          then back.runs[r].status == "failed" && back.jobs[t.runs[r].job].status == "failed"
          else back.runs[r] == t.runs[r] && back.jobs[t.runs[r].job] == t.jobs[t.runs[r].job])
  {
    UpgradeKeepsAlignment(t);
    WaitsIffReopened(t, r);
    FailsIffWaiting(Upgraded(t), now, r);
    ReopensIff(t, r);
    OwnMatch(t, r);
    hide OldOk, NewOk, NewRunOk, OldRunOk, JobOk, Linked, Aligned, Downgraded, Undecided, Reopens;
  }

  // ---------------------------------------------------------------- the tables

  class AgentTables {
    var runs: map<RunId, Run>
    var jobs: map<JobId, Job>
    var proposals: map<ProposalId, Proposal>

    ghost function State(): Tables
      reads this
    {
      Tables(runs, jobs, proposals)
    }

    /** The status part of `upgrade`: jobs first, then runs.  False is the exception. */
    method Upgrade(e: Env) returns (ok: bool)
      requires OldOk(State())
      modifies this
      ensures ok <==> !InvocationsCollide(e, old(State()))
      ensures State() == if ok then Upgraded(old(State())) else old(State())
      ensures ok ==> NewOk(State())
    {
      hide OldOk, NewOk, Undecided, Reopens, ReopenedJob, WaitingRun;
      var t := Tables(runs, jobs, proposals);
      if InvocationsCollide(e, t) {
        return false;
      }
      UpgradeKeepsAlignment(t);
      jobs := map j | j in jobs :: if Reopens(Tables(runs, jobs, proposals), j) then ReopenedJob(jobs[j]) else jobs[j];
      runs := map r | r in runs :: if Undecided(Tables(runs, jobs, proposals), r) then WaitingRun(runs[r]) else runs[r];
      SameUndecided(t, jobs);
      return true;
    }

    /** The status part of `downgrade`: runs first, then jobs. */
    method Downgrade(now: Time)
      requires NewOk(State())
      modifies this
      ensures State() == Downgraded(old(State()), now) && OldOk(State())
    {
      DowngradeKeepsAlignment(State(), now);
      runs := AbandonRuns(runs);
      jobs := map j | j in jobs :: if Abandons(runs, jobs, j) then AbandonedJob(jobs[j], now) else jobs[j];
    }
  }

  /** The run UPDATE does not look at the jobs. */
  lemma SameUndecided(t: Tables, jobs: map<JobId, Job>)
    ensures forall r | r in t.runs :: Undecided(t.(jobs := jobs), r) <==> Undecided(t, r)
  {
    forall r | r in t.runs ensures Undecided(t.(jobs := jobs), r) <==> Undecided(t, r) {
      assert HasPending(t.(jobs := jobs), r) <==> HasPending(t, r);
    }
  }
}
