/** What the activities of a workflow, the dispatcher and the API do to the row of an analysis job. */
module JobLifecycle {
  import opened Jobs
  import opened Text
  import opened Wrappers

  const MAX_RUN_ATTEMPTS := 3

  function ClampPercent(value: int): int {
    if value < 0 then 0 else if value > 100 then 100 else value
  }

  function Truncate(value: string, limit: nat): string {
    if |value| <= limit then value else value[..limit]
  }

  datatype Progress = Progress(stage: string, percent: int, message: string)

  datatype Report = Report(json: string, markdown: string)

  datatype Outcome = Done | NotFound | CancellationError

  // ----- What each actor writes to the row it read, and when

  predicate MayProgress(job: Job) {
    !job.cancellationRequested
  }

  predicate MayFinish(job: Job) {
    job.status != Cancelled && !job.cancellationRequested
  }

  predicate MayGiveUp(job: Job) {
    job.status != Completed && job.status != Cancelled
  }

  predicate MayCallOff(job: Job) {
    job.status != Completed && job.status != Failed
  }

  function Begun(job: Job, attempt: nat, now: int): Job {
    job.(status := Running, stage := "starting", percent := 1, message := "Analyzing VOD", error := "", attempts := attempt,
         startedAt := if job.startedAt.None? then Some(now) else job.startedAt, updatedAt := now)
  }

  function Progressed(job: Job, p: Progress, now: int): Job {
    if !MayProgress(job) then job
    else job.(stage := Truncate(Trim(p.stage), 64), percent := ClampPercent(p.percent), message := Truncate(Trim(p.message), 512), updatedAt := now)
  }

  predicate RefusesCompletion(job: Job) {
    job.status != Cancelled && job.cancellationRequested
  }

  function Finished(job: Job, report: Report, now: int): Job {
    if !MayFinish(job) then job
    else job.(status := Completed, stage := "completed", percent := 100, message := "Analysis completed", error := "",
              reportJson := Trim(report.json), reportMarkdown := Trim(report.markdown), finishedAt := Some(now), updatedAt := now)
  }

  function GivenUp(job: Job, error: string, now: int): Job {
    if !MayGiveUp(job) then job
    else job.(status := Failed, stage := "failed", message := "Analysis failed", error := Truncate(Trim(error), 4096),
              finishedAt := Some(now), updatedAt := now)
  }

  function CalledOff(job: Job, now: int): Job {
    if !MayCallOff(job) then job
    else job.(status := Cancelled, stage := "cancelled", message := "Analysis cancelled", error := "",
              cancellationRequested := true, finishedAt := Some(now), updatedAt := now)
  }

  function CancellationAsked(job: Job, now: int): Job {
    if job.status.Terminal() then job
    else job.(cancellationRequested := true, message := "Cancellation requested", updatedAt := now)
  }

  function FoundCorrupt(job: Job, cause: string, now: int): Job {
    job.(status := Failed, stage := "failed", message := "Stored analysis request is invalid", error := Truncate(cause, 4096),
         finishedAt := Some(now), updatedAt := now)
  }

  // ----- Dispatching

  const REQUEST_SCHEMA_VERSION := 1

  /** The stored request cannot be read, or is not the request of its job. */
  predicate Corrupt(job: Job) {
    match job.request
    case None => true
    case Some(r) =>
      || r.schemaVersion != REQUEST_SCHEMA_VERSION
      || Trim(r.owner) != Trim(job.owner) || Trim(r.vodLabel) != Trim(job.vodLabel) || Trim(r.runId) != Trim(job.runId)
  }

  function Cause(job: Job): string {
    if job.request.None? then "decode queued job request"
    else if job.request.value.schemaVersion != REQUEST_SCHEMA_VERSION then "unsupported stored request schema version"
    else "stored request tenant or resource binding does not match its job"
  }

  /** The rows after the dispatcher has gone through the first `n` jobs it listed. */
  function AfterFailing(jobs: map<string, Job>, listed: seq<Job>, now: int, n: nat): (after: map<string, Job>)
    requires n <= |listed|
    ensures after.Keys == jobs.Keys
  {
    if n == 0 then jobs
    else
      var earlier, job := AfterFailing(jobs, listed, now, n - 1), listed[n - 1];
      if Corrupt(job) && job.id in jobs then earlier[job.id := FoundCorrupt(job, Cause(job), now)] else earlier
  }

  function Dispatchable(listed: seq<Job>, n: nat): seq<string>
    requires n <= |listed|
  {
    if n == 0 then []
    else if Corrupt(listed[n - 1]) then Dispatchable(listed, n - 1)
    else Dispatchable(listed, n - 1) + [listed[n - 1].id]
  }

  /** Fails the corrupt jobs of the list and returns the IDs to start and to cancel workflows for. */
  method Reconcile(store: JobStore, queued: seq<Job>, cancellations: seq<Job>, now: int)
    returns (start: seq<string>, cancel: seq<string>)
    requires store.Valid()
    modifies store
    ensures store.Valid() && store.jobs == AfterFailing(old(store.jobs), queued, now, |queued|)
    ensures start == Dispatchable(queued, |queued|)
    ensures |cancel| == |cancellations| && forall i :: 0 <= i < |cancel| ==> cancel[i] == cancellations[i].id
  {
    start, cancel := [], [];
    for n := 0 to |queued|
      invariant store.Valid() && store.jobs == AfterFailing(old(store.jobs), queued, now, n)
      invariant start == Dispatchable(queued, n)
    {
      var job := queued[n];
      if Corrupt(job) {
        var updated := store.Update(FoundCorrupt(job, Cause(job), now));
        continue;
      }
      start := start + [job.id];
    }
    for n := 0 to |cancellations|
      invariant |cancel| == n && forall i :: 0 <= i < n ==> cancel[i] == cancellations[i].id
    {
      cancel := cancel + [cancellations[n].id];
    }
  }

  /** While the listed rows are still current, dispatching fails exactly the corrupt ones. */
  lemma {:induction false} ReconcileFailsCorrupt(jobs: map<string, Job>, listed: seq<Job>, now: int, n: nat, id: string)
    requires n <= |listed| && id in jobs
    requires forall i :: 0 <= i < |listed| ==> listed[i].id in jobs && listed[i] == jobs[listed[i].id]
    ensures AfterFailing(jobs, listed, now, n)[id] ==
            if Corrupt(jobs[id]) && (exists i :: 0 <= i < n && listed[i].id == id)
            then FoundCorrupt(jobs[id], Cause(jobs[id]), now) else jobs[id]
  {
    hide Corrupt;
    hide Cause;
    hide FoundCorrupt;
    if n > 0 {
      ReconcileFailsCorrupt(jobs, listed, now, n - 1, id);
    }
  }

  /** Read back and trimmed, the stored request is of version 1 and names the owner, the label and the
      run of its job. */
  predicate OwnRequest(job: Job) {
    && job.request.Some? && job.request.value.schemaVersion == 1
    && Trim(job.request.value.owner) == Trim(job.owner)
    && Trim(job.request.value.vodLabel) == Trim(job.vodLabel)
    && Trim(job.request.value.runId) == Trim(job.runId)
  }

  lemma OwnIsNotCorrupt(job: Job)
    ensures OwnRequest(job) <==> !Corrupt(job)
  {
    hide Trim;
  }

  /** Exactly the listed jobs with a request of their own are started, in the order of the list. */
  lemma {:induction false} StartedJobs(listed: seq<Job>, n: nat)
    requires n <= |listed|
    ensures forall id :: id in Dispatchable(listed, n) <==> exists i :: 0 <= i < n && listed[i].id == id && OwnRequest(listed[i])
    ensures n > 0 ==> Dispatchable(listed, n) ==
                      Dispatchable(listed, n - 1) + (if OwnRequest(listed[n - 1]) then [listed[n - 1].id] else [])
  {
    hide Corrupt;
    hide OwnRequest;
    if n > 0 {
      OwnIsNotCorrupt(listed[n - 1]);
      StartedJobs(listed, n - 1);
    }
  }

  /** A job whose request is not its own becomes a failed one that says why, and nothing else of it
      changes. */
  lemma FoundCorruptMeans(job: Job, now: int, cause: string)
    requires !OwnRequest(job)
    ensures var error := FoundCorrupt(job, cause, now).error;
            error <= cause && |error| == if |cause| < 4096 then |cause| else 4096
    ensures FoundCorrupt(job, Cause(job), now) ==
            job.(status := Failed, stage := "failed", message := "Stored analysis request is invalid",
                 error := if job.request.None? then "decode queued job request"
                          else if job.request.value.schemaVersion != 1 then "unsupported stored request schema version"
                          else "stored request tenant or resource binding does not match its job",
                 finishedAt := Some(now), updatedAt := now)
  {
    hide Trim;
  }

  /** Texts keep what fits of them and percentages stay between 0 and 100. */
  lemma KeptWithin(text: string, limit: nat, percent: int)
    ensures Truncate(text, limit) <= text && |Truncate(text, limit)| == (if |text| < limit then |text| else limit)
    ensures 0 <= ClampPercent(percent) <= 100 && (0 <= percent <= 100 ==> ClampPercent(percent) == percent)
    ensures percent < 0 ==> ClampPercent(percent) == 0
    ensures percent > 100 ==> ClampPercent(percent) == 100
  {
  }

  // ----- The activities: find the row, change it, write it back

  class Activities {
    const store: JobStore

    constructor (store: JobStore)
      ensures this.store == store
    {
      this.store := store;
    }

    /** The row under the trimmed ID changed by `f`, all others as they were. */
    twostate predicate Changed(id: string, f: Job -> Job)
      reads store
    {
      store.Valid() && store.jobs == if id in old(store.jobs) then old(store.jobs)[id := f(old(store.jobs[id]))] else old(store.jobs)
    }

    method BeginAnalysis(jobID: string, attempt: nat, now: int) returns (outcome: Outcome)
      requires store.Valid()
      modifies store
      ensures Changed(Trim(jobID), (job: Job) => if job.cancellationRequested then job else Begun(job, attempt, now))
      ensures outcome == if Trim(jobID) !in old(store.jobs) then NotFound
                         else if old(store.jobs[Trim(jobID)]).cancellationRequested then CancellationError else Done
    {
      var found := store.Find(Trim(jobID), "", true);
      if found.None? {
        return NotFound;
      }
      var job := found.value;
      if job.cancellationRequested {
        return CancellationError;
      }
      if job.startedAt.None? {
        job := job.(startedAt := Some(now));
      }
      job := job.(status := Running, stage := "starting", percent := 1, message := "Analyzing VOD", error := "");
      job := job.(attempts := attempt, updatedAt := now);
      var updated := store.Update(job);
      return Done;
    }

    method ReportProgress(jobID: string, p: Progress, now: int)
      requires store.Valid()
      modifies store
      ensures Changed(jobID, (job: Job) => Progressed(job, p, now))
    {
      var found := store.Find(jobID, "", true);
      if found.None? || found.value.cancellationRequested {
        return;
      }
      var job := found.value.(stage := Truncate(Trim(p.stage), 64), percent := ClampPercent(p.percent));
      job := job.(message := Truncate(Trim(p.message), 512), updatedAt := now);
      var updated := store.Update(job);
    }

    method Complete(jobID: string, report: Report, now: int) returns (outcome: Outcome)
      requires store.Valid()
      modifies store
      ensures Changed(Trim(jobID), (job: Job) => Finished(job, report, now))
      ensures outcome == if Trim(jobID) !in old(store.jobs) then NotFound
                         else if RefusesCompletion(old(store.jobs[Trim(jobID)])) then CancellationError else Done
    {
      var found := store.Find(Trim(jobID), "", true);
      if found.None? {
        return NotFound;
      }
      var job := found.value;
      if job.status == Cancelled {
        return Done;
      }
      if job.cancellationRequested {
        return CancellationError;
      }
      job := job.(status := Completed, stage := "completed", percent := 100, message := "Analysis completed", error := "");
      job := job.(reportJson := Trim(report.json), reportMarkdown := Trim(report.markdown), finishedAt := Some(now), updatedAt := now);
      var updated := store.Update(job);
      return Done;
    }

    method Fail(jobID: string, error: string, now: int) returns (outcome: Outcome)
      requires store.Valid()
      modifies store
      ensures Changed(Trim(jobID), (job: Job) => GivenUp(job, error, now))
      ensures outcome == if Trim(jobID) in old(store.jobs) then Done else NotFound
    {
      var found := store.Find(Trim(jobID), "", true);
      if found.None? {
        return NotFound;
      }
      var job := found.value;
      if job.status == Completed || job.status == Cancelled {
        return Done;
      }
      job := job.(status := Failed, stage := "failed", message := "Analysis failed", error := Truncate(Trim(error), 4096));
      job := job.(finishedAt := Some(now), updatedAt := now);
      var updated := store.Update(job);
      return Done;
    }

    method Cancel(jobID: string, now: int) returns (outcome: Outcome)
      requires store.Valid()
      modifies store
      ensures Changed(Trim(jobID), (job: Job) => CalledOff(job, now))
      ensures outcome == if Trim(jobID) in old(store.jobs) then Done else NotFound
    {
      var found := store.Find(Trim(jobID), "", true);
      if found.None? {
        return NotFound;
      }
      var job := found.value;
      if job.status == Completed || job.status == Failed {
        return Done;
      }
      job := job.(status := Cancelled, stage := "cancelled", message := "Analysis cancelled", error := "");
      job := job.(cancellationRequested := true, finishedAt := Some(now), updatedAt := now);
      var updated := store.Update(job);
      return Done;
    }

    /** Cancellation through the API, for the job of an owner or, for administrators, any job. */
    method RequestCancellation(jobID: string, user: string, admin: bool, now: int) returns (found: bool)
      requires store.Valid()
      modifies store
      ensures found == Lookup(old(store.jobs), Trim(jobID), user, admin).Some?
      ensures Changed(Trim(jobID), (job: Job) => if admin || job.owner == user then CancellationAsked(job, now) else job)
    {
      var lookup := store.Find(Trim(jobID), user, admin);
      if lookup.None? {
        return false;
      }
      var job := lookup.value;
      if job.status == Completed || job.status == Failed || job.status == Cancelled {
        return true;
      }
      job := job.(cancellationRequested := true, message := "Cancellation requested", updatedAt := now);
      var updated := store.Update(job);
      return true;
    }
  }
}
