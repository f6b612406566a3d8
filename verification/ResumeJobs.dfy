/** The backfill of legacy Resume jobs: every job gets a target and a finished timeline; an active
    one, which has no V2 worker specification, fails. */
module ResumeJobs {
  import opened Backfill
  import opened Basics
  import opened RowOrder
  import V1RichText

  const MAX_PHASE: nat := 80

  datatype Job = Job(
    jobType: string,
    workspace: string,
    targetType: Option<string>,
    targetId: Option<string>,
    status: string,
    phase: string,
    completedUnits: int,
    totalUnits: Option<int>,
    errorCode: Option<string>,
    createdAt: Time,
    updatedAt: Time,
    startedAt: Option<Time>,
    finishedAt: Option<Time>,
    extensions: Json,
    requestPayload: Option<Json>)

  /** The render job of a job, as the LEFT JOINs find it. */
  datatype RenderLink = RenderLink(resume: Option<string>, revision: Option<int>)

  /** The text of a row id, the render links, and the archive id generator. */
  datatype Source = Source(text: RowId -> string, link: RowId -> RenderLink, archiveId: RowId -> string)

  type Table = map<RowId, Job>

  /** job_type LIKE 'resume.%' */
  predicate IsResumeJob(j: Job) { "resume." <= j.jobType }

  predicate Active(status: string) { status in {"queued", "running"} }

  predicate KnownStatus(status: string) {
    status in {"queued", "running", "succeeded", "failed", "cancelled", "expired"}
  }

  /** The loop does not raise on this job. */
  predicate JobAccepted(s: Source, t: Table, id: RowId)
    requires id in t
  {
    IsOpaqueId(s.text(id)) && KnownStatus(t[id].status)
  }

  // ---------------------------------------------------------------- constraints that follow

  /** CHECK ck_jobs_jobs_v2_timeline */
  predicate Timeline(j: Job) {
    || (j.status == "queued" && j.startedAt.None? && j.finishedAt.None?)
    || (j.status == "running" && j.startedAt.Some? && j.finishedAt.None?)
    || (j.status in {"succeeded", "failed"} && j.startedAt.Some? && j.finishedAt.Some?)
    || (j.status == "cancelled" && j.finishedAt.Some?)
    || (j.status == "expired" && j.startedAt.None? && j.finishedAt.Some?)
  }

  /** The agent.jobs clause of the guard finds this row. */
  predicate JobInvalid(j: Job) {
    j.requestPayload.None? || !j.requestPayload.value.Obj? || j.targetType.None? || j.targetId.None?
  }

  predicate UnitsOk(j: Job) {
    && j.completedUnits >= 0
    && (j.totalUnits.Some? ==> j.totalUnits.value >= 0 && j.completedUnits <= j.totalUnits.value)
  }

  /** The next revision aborts on this job. */
  predicate Unmappable(text: string, j: Job) {
    || !IsOpaqueId(text)
    || !IsName(j.jobType, 2, 100)
    || j.targetType.None? || !IsName(j.targetType.value, 2, 100)
    || j.targetId.None? || !IsOpaqueId(j.targetId.value)
    || !Trimmed(j.phase) || !(1 <= |j.phase| <= MAX_PHASE)
    || !UnitsOk(j)
    || !Timeline(j)
  }

  // ---------------------------------------------------------------- one job

  /** extensions.runtime.extensions.resume_id, where each step is an object. */
  function RuntimeResume(extensions: Json): Json {
    var runtime := if extensions.Obj? && "runtime" in extensions.fields then extensions.fields["runtime"]
                   else V1RichText.Null;
    var nested := if runtime.Obj? && "extensions" in runtime.fields then runtime.fields["extensions"]
                  else V1RichText.Null;
    if nested.Obj? && "resume_id" in nested.fields then nested.fields["resume_id"] else V1RichText.Null
  }

  /** The Resume of the render job, or else the one the runtime extensions name. */
  function LinkedResume(j: Job, link: RenderLink): Option<string> {
    if link.resume.Some? && link.resume.value != "" then link.resume
    else if RuntimeResume(j.extensions).Str? then Some(RuntimeResume(j.extensions).s)
    else None
  }

  predicate Opaque(id: Option<string>) { id.Some? && IsOpaqueId(id.value) }

  /** `phase[:80] or "migration_terminal"` */
  function PhaseText(phase: string): string {
    if phase == "" then "migration_terminal" else if |phase| <= MAX_PHASE then phase else phase[..MAX_PHASE]
  }

  function OrElse(a: Option<Time>, b: Time): Option<Time> { if a.Some? then a else Some(b) }

  /** The linked Resume, as the render job or the path runtime.extensions.resume_id names it. */
  lemma LinkedResumeIff(j: Job, link: RenderLink, resume: string)
    ensures LinkedResume(j, link) == Some(resume) <==>
      || (link.resume == Some(resume) && resume != "")
      || (&& (link.resume == None || link.resume == Some(""))
          && V1RichText.At(j.extensions, ["runtime", "extensions", "resume_id"]) == Some(V1RichText.Str(resume)))
  {
    var e := j.extensions;
    V1RichText.AtSnoc(e, [], "runtime");
    V1RichText.AtSnoc(e, ["runtime"], "extensions");
    V1RichText.AtSnoc(e, ["runtime", "extensions"], "resume_id");
    assert [] + ["runtime"] == ["runtime"] && ["runtime"] + ["extensions"] == ["runtime", "extensions"];
    assert ["runtime", "extensions"] + ["resume_id"] == ["runtime", "extensions", "resume_id"];
  }

  /** The request of a job that has no V2 specification. */
  function MigrationRequest(archiveId: string, revision: Option<int>, classification: string): Json {
    V1RichText.Obj(map["migration" := V1RichText.Obj(map[
      "classification" := V1RichText.Str(classification),
      "archive_id" := V1RichText.Str(archiveId),
      "linked_revision" := if revision.Some? then V1RichText.Int(revision.value) else V1RichText.Null])])
  }

  /** The payload is an object that holds these under the key of the migration. */
  predicate Requests(payload: Json, archiveId: string, revision: Option<int>, classification: string) {
    && payload.Obj?
    && V1RichText.At(payload, ["migration", "classification"]) == Some(V1RichText.Str(classification))
    && V1RichText.At(payload, ["migration", "archive_id"]) == Some(V1RichText.Str(archiveId))
    && V1RichText.At(payload, ["migration", "linked_revision"])
       == Some(if revision == None then V1RichText.Null else V1RichText.Int(revision.value))
  }

  lemma MigrationRequests(archiveId: string, revision: Option<int>, classification: string)
    ensures Requests(MigrationRequest(archiveId, revision, classification), archiveId, revision, classification)
  {
    var payload := MigrationRequest(archiveId, revision, classification);
    V1RichText.AtSnoc(payload, [], "migration");
    assert [] + ["migration"] == ["migration"];
    forall key: string ensures ["migration"] + [key] == ["migration", key] {
    }
    V1RichText.AtSnoc(payload, ["migration"], "classification");
    V1RichText.AtSnoc(payload, ["migration"], "archive_id");
    V1RichText.AtSnoc(payload, ["migration"], "linked_revision");
    assert "classification"[0] == 'c' && "archive_id"[0] == 'a' && "linked_revision"[0] == 'l';
  }

  /** What the backfill promises of a job, column by column. */
  predicate Classified(s: Source, id: RowId, migratedAt: Time, before: Job, after: Job) {
    && after.jobType == before.jobType && after.workspace == before.workspace
    && after.completedUnits == before.completedUnits && after.totalUnits == before.totalUnits
    && after.createdAt == before.createdAt && after.updatedAt == before.updatedAt
    && after.extensions == before.extensions
    && after.targetId.Some? && after.targetType.Some?
    && IsTarget(before, LinkedResume(before, s.link(id)), after.targetType.value, after.targetId.value)
    && Timeline(after) && !Active(after.status)
    && if before.status in {"queued", "running"} then
      && after.status == "failed" && after.phase == "migration_terminal"
      && after.errorCode == Some("resume.legacy_job_unreplayable")
      && after.startedAt == (if before.startedAt == None then Some(before.createdAt) else before.startedAt)
      && after.finishedAt == Some(migratedAt)
      && after.requestPayload.Some?
      && Requests(after.requestPayload.value, s.archiveId(id), s.link(id).revision, "terminal_unreplayable")
    else
      && after.status == before.status
      && after.phase == (if before.phase == "" then "migration_terminal" else before.phase[..Min(|before.phase|, 80)])
      && after.errorCode == before.errorCode
      && after.finishedAt == (if before.finishedAt == None then Some(before.updatedAt) else before.finishedAt)
      && after.startedAt == (if before.status == "expired" then None
                             else if before.status != "cancelled" && before.startedAt == None
                             then Some(before.createdAt) else before.startedAt)
      && after.requestPayload.Some?
      && Requests(after.requestPayload.value, s.archiveId(id), s.link(id).revision, "legacy_terminal_preserved")
  }

  /** A job keeps a target that V2 can address, with its type if that is well formed; else its target is the
      linked Resume, else its Workspace. */
  predicate IsTarget(j: Job, linked: Option<string>, targetType: string, targetId: string) {
    if Opaque(j.targetId) then
      && targetId == j.targetId.value
      && targetType == (if j.targetType.Some? && IsName(j.targetType.value, 2, 100) then j.targetType.value
                        else if j.targetType.Some? && j.targetType.value != "" && targetId == j.workspace
                        then "workspace" else "resume")
    else if Opaque(linked) then targetId == linked.value && targetType == "resume"
    else targetId == j.workspace && targetType == "workspace"
  }

  /** `target_type` after its fallbacks. */
  method ChooseTarget(j: Job, link: RenderLink) returns (targetType: string, targetId: string)
    ensures IsTarget(j, LinkedResume(j, link), targetType, targetId) && IsName(targetType, 2, 100)
  {
    var linked := LinkedResume(j, link);
    if Opaque(j.targetId) {
      targetId := j.targetId.value;
      targetType := if j.targetType.Some? && j.targetType.value != "" then j.targetType.value else "resume";
    } else if Opaque(linked) {
      targetId, targetType := linked.value, "resume";
    } else {
      targetId, targetType := j.workspace, "workspace";
    }
    if !IsName(targetType, 2, 100) {
      targetType := if targetId != j.workspace then "resume" else "workspace";
    }
  }

  method ClassifyJob(s: Source, id: RowId, j: Job, migratedAt: Time) returns (r: Result<Job>, terminated: bool)
    ensures r.Success? <==> IsOpaqueId(s.text(id)) && KnownStatus(j.status)
    ensures r.Success? ==> Classified(s, id, migratedAt, j, r.value) && (terminated <==> Active(j.status))
  {
    hide IsOpaqueId, IsName, RuntimeResume, LinkedResume, IsTarget, Opaque;
    terminated := false;
    if !IsOpaqueId(s.text(id)) {
      return Failure, false;
    }
    var targetType, targetId := ChooseTarget(j, s.link(id));
    var status, phase, errorCode, startedAt, finishedAt := j.status, j.phase, j.errorCode, j.startedAt, j.finishedAt;
    var classification := "legacy_terminal_preserved";
    if status == "queued" || status == "running" {
      status, phase := "failed", "migration_terminal";
      startedAt, finishedAt := OrElse(startedAt, j.createdAt), Some(migratedAt);
      errorCode := Some("resume.legacy_job_unreplayable");
      classification := "terminal_unreplayable";
      terminated := true;
    } else if status == "succeeded" || status == "failed" {
      startedAt := OrElse(startedAt, j.createdAt);
      finishedAt := OrElse(finishedAt, j.updatedAt);
    } else if status == "cancelled" {
      finishedAt := OrElse(finishedAt, j.updatedAt);
    } else if status == "expired" {
      startedAt := None;
      finishedAt := OrElse(finishedAt, j.updatedAt);
    } else {
      return Failure, false;
    }
    var payload := MigrationRequest(s.archiveId(id), s.link(id).revision, classification);
    MigrationRequests(s.archiveId(id), s.link(id).revision, classification);
    hide MigrationRequest, Requests;
    r := Success(j.(status := status, phase := PhaseText(phase), targetType := Some(targetType),
                    targetId := Some(targetId), requestPayload := Some(payload), errorCode := errorCode,
                    startedAt := startedAt, finishedAt := finishedAt));
  }

  // ---------------------------------------------------------------- the table

  function ResumeJobs(t: Table): set<RowId> {
    set id | id in t && IsResumeJob(t[id])
  }

  function ActiveJobs(t: Table, ids: set<RowId>): set<RowId> {
    set id | id in ids && id in t && Active(t[id].status)
  }

  ghost predicate Accepted(s: Source, t: Table) {
    forall id | id in ResumeJobs(t) :: JobAccepted(s, t, id)
  }

  /** The jobs `done` are classified, all others untouched. */
  ghost predicate ClassifiedRows(s: Source, migratedAt: Time, t: Table, done: set<RowId>, t': Table) {
    && t'.Keys == t.Keys
    && (forall id | id in done && id in t :: Classified(s, id, migratedAt, t[id], t'[id]))
    && (forall id | id in t && id !in done :: t'[id] == t[id])
  }

  /** The loop after the jobs `seen`, with its count. */
  ghost predicate Progress(s: Source, migratedAt: Time, t: Table, seen: seq<RowId>, rows: Table, count: int) {
    && ClassifiedRows(s, migratedAt, t, Elements(seen), rows)
    && (forall id | id in seen :: id in t && JobAccepted(s, t, id))
    && count == |ActiveJobs(t, Elements(seen))|
  }

  lemma ProgressStart(s: Source, migratedAt: Time, t: Table)
    ensures Progress(s, migratedAt, t, [], t, 0)
  {
  }

  lemma ProgressStep(s: Source, migratedAt: Time, t: Table, seen: seq<RowId>, rows: Table, count: int, id: RowId,
                     job: Job)
    requires Progress(s, migratedAt, t, seen, rows, count) && id in t && id !in seen
    requires JobAccepted(s, t, id) && Classified(s, id, migratedAt, t[id], job)
    ensures Progress(s, migratedAt, t, seen + [id], rows[id := job], if Active(t[id].status) then count + 1 else count)
  {
    hide Classified, JobAccepted, ActiveJobs;
    assert Elements(seen + [id]) == Elements(seen) + {id};
    CountStep(t, Elements(seen), id);
  }

  lemma CountStep(t: Table, done: set<RowId>, id: RowId)
    requires id in t && id !in done
    ensures |ActiveJobs(t, done + {id})| == |ActiveJobs(t, done)| + if Active(t[id].status) then 1 else 0
  {
    if Active(t[id].status) {
      assert ActiveJobs(t, done + {id}) == ActiveJobs(t, done) + {id};
    } else {
      assert ActiveJobs(t, done + {id}) == ActiveJobs(t, done);
    }
  }

  lemma ProgressEnd(s: Source, migratedAt: Time, t: Table, seen: seq<RowId>, rows: Table, count: int)
    requires Progress(s, migratedAt, t, seen, rows, count)
    requires forall id :: id in seen <==> id in ResumeJobs(t)
    ensures Accepted(s, t) && ClassifiedRows(s, migratedAt, t, ResumeJobs(t), rows)
    ensures count == |ActiveJobs(t, ResumeJobs(t))|
  {
    hide Classified, JobAccepted;
    assert Elements(seen) == ResumeJobs(t);
  }

  lemma NotAccepted(s: Source, t: Table, id: RowId)
    requires id in ResumeJobs(t) && !JobAccepted(s, t, id)
    ensures !Accepted(s, t)
  {
  }

  /** WHERE job_type LIKE 'resume.%' ORDER BY id */
  function Listing(t: Table): seq<RowId> {
    Ordered(ResumeJobs(t), (id: RowId) => Key(0, 0, 0, id.position))
  }

  lemma ListsResumeJobs(t: Table, listing: seq<RowId>)
    requires listing == Listing(t)
    ensures forall i | 0 <= i < |listing| :: listing[i] in ResumeJobs(t)
    ensures forall id :: id in listing <==> id in ResumeJobs(t)
    ensures forall i, j | 0 <= i < j < |listing| :: listing[i] != listing[j]
  {
    var order := (id: RowId) => Key(0, 0, 0, id.position);
    OrderedLists(ResumeJobs(t), order);
    forall i, j | 0 <= i < j < |listing| ensures listing[i] != listing[j] {
      assert Less(order(listing[i]), order(listing[j]));
    }
  }

  class Jobs {
    var rows: Table

    /** `_backfill_resume_jobs`: the result counts the jobs it had to fail; None is the exception,
        which rolls the table back. */
    method Backfill(s: Source, migratedAt: Time) returns (classified: Option<nat>)
      modifies this
      ensures classified.Some? <==> Accepted(s, old(rows))
      ensures classified.None? ==> rows == old(rows)
      ensures classified.Some? ==>
        && ClassifiedRows(s, migratedAt, old(rows), ResumeJobs(old(rows)), rows)
        && classified.value == |ActiveJobs(old(rows), ResumeJobs(old(rows)))|
    {
      hide Classified, ClassifiedRows, Progress, Accepted, ActiveJobs, Listing, IsOpaqueId;
      var before := rows;
      var listing := Listing(rows);
      ListsResumeJobs(rows, listing);
      var count := 0;
      ghost var seen := [];
      ProgressStart(s, migratedAt, before);
      var i := 0;
      while i < |listing|
        invariant 0 <= i == |seen| <= |listing|
        invariant forall k | 0 <= k < i :: seen[k] == listing[k]
        invariant Progress(s, migratedAt, before, seen, rows, count)
      {
        var id := listing[i];
        assert id !in seen;
        var job, terminated := ClassifyJob(s, id, before[id], migratedAt);
        if job.Failure? {
          rows := before;
          NotAccepted(s, before, id);
          return None;
        }
        ProgressStep(s, migratedAt, before, seen, rows, count, id, job.value);
        rows := rows[id := job.value];
        if terminated {
          count := count + 1;
        }
        seen := seen + [id];
        i := i + 1;
      }
      assert seen == listing;
      ProgressEnd(s, migratedAt, before, seen, rows, count);
      return Some(count);
    }
  }

  // ---------------------------------------------------------------- what the backfill establishes

  /** Which tables go through and what becomes of them, by job type and status. */
  lemma ResumeJobsAreClassified(s: Source, migratedAt: Time, t: Table, t': Table)
    ensures Accepted(s, t) <==> forall id | id in t && "resume." <= t[id].jobType ::
      && IsOpaqueId(s.text(id))
      && t[id].status in {"queued", "running", "succeeded", "failed", "cancelled", "expired"}
    ensures ClassifiedRows(s, migratedAt, t, ResumeJobs(t), t') <==>
      && t'.Keys == t.Keys
      && (forall id | id in t && "resume." <= t[id].jobType :: Classified(s, id, migratedAt, t[id], t'[id]))
      && (forall id | id in t && !("resume." <= t[id].jobType) :: t'[id] == t[id])
    ensures ActiveJobs(t, ResumeJobs(t))
         == set id | id in t && "resume." <= t[id].jobType && t[id].status in {"queued", "running"}
  {
    assert forall id :: id in ResumeJobs(t) <==> id in t && "resume." <= t[id].jobType;
    hide Classified, IsOpaqueId, ResumeJobs;
  }

  /** No Resume job is left that the guard would find or that is still active. */
  lemma JobGuardIsRedundant(s: Source, migratedAt: Time, t: Table, t': Table, id: RowId)
    requires ClassifiedRows(s, migratedAt, t, ResumeJobs(t), t')
    requires id in t' && IsResumeJob(t'[id])
    ensures !JobInvalid(t'[id]) && Timeline(t'[id]) && !Active(t'[id].status)
  {
    assert id in ResumeJobs(t);
  }

  /** When the next revision can take the job over: its type is well formed, it has a target besides
      its Workspace or the Workspace's own id is an opaque id, and its phase and units were in order.
      The lifecycle, which that revision checks too, never stands in the way. */
  lemma MappableIff(s: Source, migratedAt: Time, t: Table, t': Table, id: RowId)
    requires ClassifiedRows(s, migratedAt, t, ResumeJobs(t), t') && Accepted(s, t)
    requires id in ResumeJobs(t)
    ensures id in t'
    ensures !Unmappable(s.text(id), t'[id]) <==>
      && IsName(t[id].jobType, 2, 100)
      && (Opaque(t[id].targetId) || Opaque(LinkedResume(t[id], s.link(id))) || IsOpaqueId(t[id].workspace))
      && (Active(t[id].status) || Trimmed(PhaseText(t[id].phase)))
      && UnitsOk(t[id])
  {
    assert JobAccepted(s, t, id);
    ClassifiedParts(s, id, migratedAt, t[id], t'[id]);
    hide Classified, IsName, IsOpaqueId, UnitsOk, Trimmed, LinkedResume, Timeline, PhaseText, JobAccepted;
  }

  /** What the next revision looks at in a classified job. */
  lemma ClassifiedParts(s: Source, id: RowId, migratedAt: Time, before: Job, after: Job)
    requires Classified(s, id, migratedAt, before, after)
    ensures after.jobType == before.jobType && Timeline(after) && (UnitsOk(after) <==> UnitsOk(before))
    ensures after.targetType.Some? && IsName(after.targetType.value, 2, 100) && after.targetId.Some?
    ensures IsOpaqueId(after.targetId.value) <==>
      Opaque(before.targetId) || Opaque(LinkedResume(before, s.link(id))) || IsOpaqueId(before.workspace)
    ensures 1 <= |after.phase| <= 80
    ensures Trimmed(after.phase) <==> Active(before.status) || Trimmed(PhaseText(before.phase))
  {
    hide IsName, IsOpaqueId, UnitsOk, Trimmed, LinkedResume, Timeline, Requests, IsTarget;
    TerminalPhase();
    TargetIsName(before, LinkedResume(before, s.link(id)), after.targetType.value, after.targetId.value);
    SameUnits(before, after);
    assert before.phase[..Min(|before.phase|, 80)] == if |before.phase| <= 80 then before.phase else before.phase[..80];
  }

  lemma TerminalPhase()
    ensures Trimmed("migration_terminal") && |"migration_terminal"| == 18
  {
    assert "migration_terminal"[0] == 'm' && "migration_terminal"[17] == 'l';
  }

  lemma TargetIsName(j: Job, linked: Option<string>, targetType: string, targetId: string)
    requires IsTarget(j, linked, targetType, targetId)
    ensures IsName(targetType, 2, 100)
    ensures IsOpaqueId(targetId) <==> Opaque(j.targetId) || Opaque(linked) || IsOpaqueId(j.workspace)
  {
    hide IsOpaqueId;
  }

  lemma SameUnits(before: Job, after: Job)
    requires after.completedUnits == before.completedUnits && after.totalUnits == before.totalUnits
    ensures UnitsOk(after) <==> UnitsOk(before)
  {
  }

  /** A queued job that claims two units done of one. */
  const OVERCOUNTED: Job := Job("resume.render", "workspace1", None, None, "queued", "queued", 2, Some(1), None,
                                0, 0, None, None, V1RichText.Null, None)

  const BARE: Source := Source(_ => "job_0001", _ => RenderLink(None, None), _ => "archive1")

  /** Such jobs exist: this backfill accepts it, and whatever it writes, the next revision aborts on it. */
  lemma OvercountedJobIsUnmappable(migratedAt: Time, t': Table)
    ensures var t: Table := map[RowId(0) := OVERCOUNTED];
      && Accepted(BARE, t)
      && (ClassifiedRows(BARE, migratedAt, t, ResumeJobs(t), t') ==>
            RowId(0) in t' && t'[RowId(0)].status == "failed" && Unmappable("job_0001", t'[RowId(0)]))
  {
    var t: Table := map[RowId(0) := OVERCOUNTED];
    assert "job_0001" == ['j', 'o', 'b', '_', '0', '0', '0', '1'];
    assert IsOpaqueId("job_0001");
    assert "resume." <= "resume.render";
    assert RowId(0) in ResumeJobs(t);
    if ClassifiedRows(BARE, migratedAt, t, ResumeJobs(t), t') {
      MappableIff(BARE, migratedAt, t, t', RowId(0));
    }
  }
}
