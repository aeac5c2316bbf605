/** ai/jobs.py: the in-memory store of background recommendation jobs. */
module AiJobs {
  import opened Text
  import opened Wrappers
  import opened Collections
  import Json

  /** A job dictionary. `created_at` is an integer clock. */
  datatype Job = Job(id: String, status: String, progressMessage: String, result: Option<Json.Json>,
                     error: Option<String>, createdAt: int)

  /** The job `create_job` stores. */
  function NewJob(id: String, now: int): (j: Job)
    ensures j.status == "pending" && j.progressMessage == "Initializing..."
    ensures j.result.None? && j.error.None? && j.id == id && j.createdAt == now
  {
    Job(id, "pending", "Initializing...", None, None, now)
  }

  /** Python truth of an optional string argument: None and "" are false. */
  predicate Given(s: Option<String>) { s.Some? && s.value != [] }

  /** Python truth of the optional `result` argument. */
  predicate GivenResult(r: Option<Json.Json>) { r.Some? && Json.Truthy(r.value) }

  /** The job after `update_job`, stated field by field: an error fails the
      job whatever else is given, a result without an error completes it,
      and only with neither does a given status stand. */
  function Updated(job: Job, status: Option<String>, message: Option<String>, result: Option<Json.Json>,
                   error: Option<String>): Job
  {
    job.(status := if Given(error) then "failed" else if GivenResult(result) then "completed"
                   else if Given(status) then status.value else job.status,
         progressMessage := if Given(message) then message.value else job.progressMessage,
         result := if GivenResult(result) then result else job.result,
         error := if Given(error) then error else job.error)
  }

  /** `now - created_at > max_age_seconds`. */
  predicate TooOld(job: Job, maxAge: int, now: int) { now - job.createdAt > maxAge }

  /** The jobs `cleanup_old_jobs` keeps. */
  function Young(jobs: map<String, Job>, maxAge: int, now: int): (r: map<String, Job>)
    ensures forall k :: k in r <==> k in jobs && !TooOld(jobs[k], maxAge, now)
    ensures forall k :: k in r ==> r[k] == jobs[k]
  {
    map k | k in jobs && !TooOld(jobs[k], maxAge, now) :: jobs[k]
  }

  class JobStore {
    var jobs: map<String, Job>

    constructor()
      ensures jobs == map[]
    {
      jobs := map[];
    }

    /** `create_job`, with the fresh UUID and the clock given. */
    method CreateJob(id: String, now: int) returns (r: String)
      modifies this
      ensures r == id && jobs == old(jobs)[id := NewJob(id, now)]
    {
      jobs := jobs[id := NewJob(id, now)];
      r := id;
    }

    /** `get_job`: None for an unknown id. */
    method GetJob(id: String) returns (r: Option<Job>)
      ensures r.None? <==> id !in jobs
      ensures r.Some? ==> r.value == jobs[id]
    {
      r := if id in jobs then Some(jobs[id]) else None;
    }

    /** `update_job`: an unknown id changes nothing; otherwise the fields are
        written in the source's order, so the error, written last, wins. */
    method UpdateJob(id: String, status: Option<String>, message: Option<String>, result: Option<Json.Json>,
                     error: Option<String>)
      modifies this
      ensures id !in old(jobs) ==> jobs == old(jobs)
      ensures id in old(jobs) ==> jobs == old(jobs)[id := Updated(old(jobs)[id], status, message, result, error)]
    {
      if id !in jobs {
        return;
      }
      var job := jobs[id];
      if Given(status) {
        job := job.(status := status.value);
      }
      if Given(message) {
        job := job.(progressMessage := message.value);
      }
      if GivenResult(result) {
        job := job.(result := result, status := "completed");
      }
      if Given(error) {
        job := job.(error := error, status := "failed");
      }
      jobs := jobs[id := job];
    }

    /** `cleanup_old_jobs`: collect the ids of jobs older than `maxAge`,
        then delete them one by one. */
    method CleanupOldJobs(maxAge: int, now: int)
      modifies this
      ensures jobs == Young(old(jobs), maxAge, now)
    {
      var m := jobs;
      var toRemove := SetToSeq(set k | k in m && TooOld(m[k], maxAge, now));
      for i := 0 to |toRemove|
        invariant jobs.Keys == m.Keys - Elems(toRemove[..i])
        invariant forall k :: k in jobs ==> jobs[k] == m[k]
      {
        jobs := jobs - {toRemove[i]};
        assert Elems(toRemove[..i + 1]) == Elems(toRemove[..i]) + {toRemove[i]} by {
          assert toRemove[..i + 1] == toRemove[..i] + [toRemove[i]];
        }
      }
      assert toRemove[..|toRemove|] == toRemove;
    }
  }

  /** An update that gives nothing, or only empty strings, leaves the job
      as it was. */
  lemma EmptyUpdateKeeps(job: Job, status: Option<String>, message: Option<String>)
    requires !Given(status) && !Given(message)
    ensures Updated(job, status, message, None, None) == job
  {
  }

  /** An error fails the job even alongside a result and a status. */
  lemma ErrorWins(job: Job, status: Option<String>, message: Option<String>, result: Option<Json.Json>, error: String)
    requires error != []
    ensures Updated(job, status, message, result, Some(error)).status == "failed"
    ensures Updated(job, status, message, result, Some(error)).error == Some(error)
  {
  }

  /** Cleaning up twice at the same moment removes nothing more. */
  lemma CleanupIdempotent(jobs: map<String, Job>, maxAge: int, now: int)
    ensures Young(Young(jobs, maxAge, now), maxAge, now) == Young(jobs, maxAge, now)
  {
  }
}
