/** Analysis jobs and the store that keeps them. */
module Jobs {
  import opened Wrappers

  datatype Status = Queued | Running | Completed | Failed | Cancelled {
    predicate Terminal() {
      Completed? || Failed? || Cancelled?
    }
  }

  /** The part of a stored request that binds it to its job. */
  datatype Request = Request(schemaVersion: int, owner: string, vodLabel: string, runId: string)

  /** A job row; `request` is missing when the stored request cannot be decoded. */
  datatype Job = Job(
    id: string, owner: string, runId: string, vodLabel: string, request: Option<Request>,
    status: Status, stage: string, percent: int, message: string, error: string,
    reportJson: string, reportMarkdown: string, attempts: nat, cancellationRequested: bool,
    createdAt: int, startedAt: Option<int>, finishedAt: Option<int>, updatedAt: int)

  function Lookup(jobs: map<string, Job>, id: string, owner: string, includeAll: bool): Option<Job> {
    if id in jobs && (includeAll || jobs[id].owner == owner) then Some(jobs[id]) else None
  }

  /** The store holds whole rows; an update replaces the row of its ID. */
  class JobStore {
    var jobs: map<string, Job>

    ghost predicate Valid()
      reads this
    {
      forall id :: id in jobs ==> jobs[id].id == id
    }

    constructor ()
      ensures Valid() && jobs == map[]
    {
      jobs := map[];
    }

    method Create(job: Job) returns (created: bool)
      requires Valid()
      modifies this
      ensures Valid() && created == (job.id !in old(jobs))
      ensures jobs == if created then old(jobs)[job.id := job] else old(jobs)
    {
      if job.id in jobs {
        return false;
      }
      jobs := jobs[job.id := job];
      return true;
    }

    method Find(id: string, owner: string, includeAll: bool) returns (found: Option<Job>)
      ensures found == Lookup(jobs, id, owner, includeAll)
    {
      if id !in jobs || (!includeAll && jobs[id].owner != owner) {
        return None;
      }
      return Some(jobs[id]);
    }

    method Update(job: Job) returns (updated: bool)
      requires Valid()
      modifies this
      ensures Valid() && updated == (job.id in old(jobs))
      ensures jobs == if updated then old(jobs)[job.id := job] else old(jobs)
    {
      if job.id !in jobs {
        return false;
      }
      jobs := jobs[job.id := job];
      return true;
    }
  }
}
