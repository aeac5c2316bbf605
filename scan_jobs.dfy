/** The `scan_jobs` table: one row per library scan, its status, its progress
    counters and its error log. Timestamps come from an abstract clock passed
    in as `now`. */
module ScanJobs {
  import opened Text
  import opened Wrappers
  import opened Json

  /** The statuses the table's CHECK constraint admits. */
  datatype Status = Running | Completed | Failed | Cancelled

  /** A value of one of the metric columns. */
  datatype JobValue = VText(text: String) | VInt(n: int)

  /** The `errors` column: the text `json.dumps` wrote for a value, or text
      written directly by SQL. */
  datatype ErrorsCell = JsonText(value: Json) | RawText(text: String)

  datatype JobRow = JobRow(
    startedAt: int,
    completedAt: Option<int>,
    status: Status,
    scanType: String,
    totalComics: int,
    processedComics: int,
    metrics: map<String, JobValue>,   // the whitelisted metric columns that are not NULL
    errors: Option<ErrorsCell>,
    cancelRequested: bool)

  /** The metric columns `update_scan_progress` may write. */
  const AllowedMetrics: seq<String> := [
    "current_file", "phase", "new_comics", "deleted_comics", "changed_comics",
    "processed_pages", "page_errors", "processed_thumbnails", "thumbnail_errors",
    "thumb_bytes_written", "thumb_bytes_saved"]

  /** Column defaults of a fresh row: every counter 0, current_file and phase NULL. */
  function DefaultMetrics(): (m: map<String, JobValue>)
    ensures m.Keys == set k | k in AllowedMetrics && k != "current_file" && k != "phase"
    ensures forall k :: k in m ==> m[k] == VInt(0)
  {
    map k | k in AllowedMetrics && k != "current_file" && k != "phase" :: VInt(0)
  }

  /** The errors column written for an `errors` argument: NULL when it is falsy. */
  function StoredErrors(errors: Json): (c: Option<ErrorsCell>)
    ensures c.Some? <==> Truthy(errors)
  {
    if Truthy(errors) then Some(JsonText(errors)) else None
  }

  /** What a reader of `_parse_job`'s result sees in place of the errors column. */
  datatype ErrorsView = NoErrors | Decoded(value: Json) | Undecoded(text: String)

  /** `_parse_job` on the errors column: JSON text is decoded, other text is left
      as it is, NULL stays NULL. */
  function ParseErrors(c: Option<ErrorsCell>): (v: ErrorsView)
    ensures c.Some? && c.value.JsonText? ==> v == Decoded(c.value.value)
    ensures c.None? ==> v == NoErrors
  {
    match c
    case None => NoErrors
    case Some(JsonText(j)) => Decoded(j)
    case Some(RawText(t)) => if t == [] then NoErrors else Undecoded(t)
  }

  /** The whitelisted, non-None keyword arguments of `update_scan_progress`, later ones winning. */
  function Whitelisted(kwargs: seq<(String, Option<JobValue>)>): (m: map<String, JobValue>)
    ensures forall k :: k in m ==> k in AllowedMetrics
    ensures forall i :: 0 <= i < |kwargs| && kwargs[i].0 in AllowedMetrics && kwargs[i].1.Some? ==> kwargs[i].0 in m
    decreases |kwargs|
  {
    if kwargs == [] then map[]
    else
      var last := kwargs[|kwargs| - 1];
      var before := Whitelisted(kwargs[..|kwargs| - 1]);
      if last.0 in AllowedMetrics && last.1.Some? then before[last.0 := last.1.value] else before
  }

  /** Four whitelisted keywords with values are all written, later ones winning. */
  lemma WhitelistedFour(k1: String, v1: JobValue, k2: String, v2: JobValue,
                        k3: String, v3: JobValue, k4: String, v4: JobValue)
    requires k1 in AllowedMetrics && k2 in AllowedMetrics && k3 in AllowedMetrics && k4 in AllowedMetrics
    ensures Whitelisted([(k1, Some(v1)), (k2, Some(v2)), (k3, Some(v3)), (k4, Some(v4))]) ==
              map[k1 := v1, k2 := v2, k3 := v3, k4 := v4]
  {
    var a1 := [(k1, Some(v1))];
    var a2 := a1 + [(k2, Some(v2))];
    var a3 := a2 + [(k3, Some(v3))];
    var a4 := a3 + [(k4, Some(v4))];
    assert a1[..0] == [] && a2[..1] == a1 && a3[..2] == a2 && a4[..3] == a3;
    assert Whitelisted(a1) == map[k1 := v1];
    assert Whitelisted(a2) == map[k1 := v1, k2 := v2];
    assert Whitelisted(a3) == map[k1 := v1, k2 := v2, k3 := v3];
    assert a4 == [(k1, Some(v1)), (k2, Some(v2)), (k3, Some(v3)), (k4, Some(v4))];
  }

  /** Keyword arguments outside the whitelist, or passed as None, change nothing. */
  lemma {:induction false} WhitelistIgnores(kwargs: seq<(String, Option<JobValue>)>, k: String)
    requires k !in AllowedMetrics || forall i :: 0 <= i < |kwargs| && kwargs[i].0 == k ==> kwargs[i].1.None?
    ensures k !in Whitelisted(kwargs)
    decreases |kwargs|
  {
    if kwargs != [] {
      WhitelistIgnores(kwargs[..|kwargs| - 1], k);
    }
  }

  /** The latest-started row among `ids`, as `ORDER BY started_at DESC LIMIT 1` returns it. */
  predicate IsLatest(rows: map<nat, JobRow>, ids: set<nat>, id: nat)
  {
    id in ids && id in rows && forall j :: j in ids && j in rows ==> rows[j].startedAt <= rows[id].startedAt
  }

  function RunningIds(rows: map<nat, JobRow>): (r: set<nat>)
    ensures forall id :: id in r <==> id in rows && rows[id].status == Running
  {
    set id | id in rows && rows[id].status == Running
  }

  /** A non-empty set of rows has a latest-started one. */
  lemma {:induction false} LatestExists(rows: map<nat, JobRow>, ids: set<nat>)
    requires ids != {} && ids <= rows.Keys
    ensures exists id :: IsLatest(rows, ids, id)
    decreases |ids|
  {
    var x :| x in ids;
    if ids == {x} {
      assert IsLatest(rows, ids, x);
    } else {
      LatestExists(rows, ids - {x});
      var y :| IsLatest(rows, ids - {x}, y);
      if rows[x].startedAt <= rows[y].startedAt {
        assert IsLatest(rows, ids, y);
      } else {
        assert IsLatest(rows, ids, x);
      }
    }
  }

  /** The `scan_jobs` table. */
  class ScanJobsTable {
    var rows: map<nat, JobRow>
    var nextId: nat

    ghost predicate Valid()
      reads this
    {
      nextId >= 1 && forall id :: id in rows ==> 1 <= id < nextId
    }

    constructor()
      ensures Valid() && rows == map[]
    {
      rows := map[];
      nextId := 1;
    }

    /** `create_scan_job`: a new 'running' row; returns its id. */
    method CreateScanJob(scanType: String, totalComics: int, now: int) returns (id: nat)
      requires Valid()
      modifies this
      ensures Valid()
      ensures id !in old(rows) && id >= 1
      ensures rows == old(rows)[id := JobRow(now, None, Running, scanType, totalComics, 0,
                                             DefaultMetrics(), None, false)]
    {
      id := nextId;
      rows := rows[id := JobRow(now, None, Running, scanType, totalComics, 0, DefaultMetrics(), None, false)];
      nextId := nextId + 1;
    }

    /** `update_scan_progress`: always sets processed_comics and rewrites the
        errors column; writes only whitelisted metrics given a value. */
    method UpdateScanProgress(jobId: nat, processedComics: int, errors: Json,
                              kwargs: seq<(String, Option<JobValue>)>)
      requires Valid()
      modifies this
      ensures Valid()
      ensures jobId !in old(rows) ==> rows == old(rows)
      ensures jobId in old(rows) ==>
                rows == old(rows)[jobId := old(rows)[jobId].(
                  processedComics := processedComics,
                  errors := StoredErrors(errors),
                  metrics := old(rows)[jobId].metrics + Whitelisted(kwargs))]
    {
      var updates: map<String, JobValue> := map[];
      var i := 0;
      while i < |kwargs|
        invariant 0 <= i <= |kwargs|
        invariant updates == Whitelisted(kwargs[..i])
      {
        assert kwargs[..i + 1][..i] == kwargs[..i];
        var (key, value) := kwargs[i];
        if key in AllowedMetrics && value.Some? {
          updates := updates[key := value.value];
        }
        i := i + 1;
      }
      assert kwargs[..|kwargs|] == kwargs;
      if jobId in rows {
        rows := rows[jobId := rows[jobId].(processedComics := processedComics, errors := StoredErrors(errors),
                                           metrics := rows[jobId].metrics + updates)];
      }
    }

    /** `UPDATE scan_jobs SET total_comics = ? WHERE id = ?`, and the phase-two
        start that also zeroes processed_comics. */
    method SetTotal(jobId: nat, total: int, resetProcessed: bool)
      requires Valid()
      modifies this
      ensures Valid()
      ensures jobId !in old(rows) ==> rows == old(rows)
      ensures jobId in old(rows) ==>
                rows == old(rows)[jobId := old(rows)[jobId].(
                  totalComics := total,
                  processedComics := if resetProcessed then 0 else old(rows)[jobId].processedComics)]
    {
      if jobId in rows {
        rows := rows[jobId := rows[jobId].(totalComics := total,
                                           processedComics := if resetProcessed then 0 else rows[jobId].processedComics)];
      }
    }

    /** The phase-two progress update written by direct SQL after each batch. */
    method RecordBatch(jobId: nat, processed: int, currentFile: String,
                       pagesDone: int, pagesErr: int, thumbDone: int, thumbErr: int, errors: seq<Json>)
      requires Valid()
      modifies this
      ensures Valid()
      ensures jobId !in old(rows) ==> rows == old(rows)
      ensures jobId in old(rows) ==>
                rows == old(rows)[jobId := old(rows)[jobId].(
                  processedComics := processed,
                  errors := if errors == [] then None else Some(JsonText(JArr(errors))),
                  metrics := old(rows)[jobId].metrics[
                    "current_file" := VText(currentFile)][
                    "phase" := VText("Phase 2: Processing")][
                    "processed_pages" := VInt(pagesDone)][
                    "page_errors" := VInt(pagesErr)][
                    "processed_thumbnails" := VInt(thumbDone)][
                    "thumbnail_errors" := VInt(thumbErr)])]
    {
      if jobId in rows {
        var row := rows[jobId];
        rows := rows[jobId := row.(
          processedComics := processed,
          errors := if errors == [] then None else Some(JsonText(JArr(errors))),
          metrics := row.metrics["current_file" := VText(currentFile)]["phase" := VText("Phase 2: Processing")]
                                ["processed_pages" := VInt(pagesDone)]["page_errors" := VInt(pagesErr)]
                                ["processed_thumbnails" := VInt(thumbDone)]["thumbnail_errors" := VInt(thumbErr)])];
      }
    }

    /** `complete_scan_job`: sets the status, the completion time and the errors (NULL when falsy). */
    method CompleteScanJob(jobId: nat, status: Status, errors: Json, now: int)
      requires Valid()
      modifies this
      ensures Valid()
      ensures jobId !in old(rows) ==> rows == old(rows)
      ensures jobId in old(rows) ==>
                rows == old(rows)[jobId := old(rows)[jobId].(status := status, completedAt := Some(now),
                                                            errors := StoredErrors(errors))]
    {
      if jobId in rows {
        rows := rows[jobId := rows[jobId].(status := status, completedAt := Some(now), errors := StoredErrors(errors))];
      }
    }

    /** `get_scan_status(job_id)`: the row with its errors decoded, or None. */
    method GetScanStatus(jobId: nat) returns (job: Option<(JobRow, ErrorsView)>)
      ensures jobId !in rows ==> job.None?
      ensures jobId in rows ==> job == Some((rows[jobId], ParseErrors(rows[jobId].errors)))
    {
      if jobId in rows {
        job := Some((rows[jobId], ParseErrors(rows[jobId].errors)));
      } else {
        job := None;
      }
    }

    /** `get_latest_scan_job`: a most recently started job, or None when the table is empty. */
    method GetLatestScanJob() returns (id: Option<nat>)
      ensures id.None? <==> rows == map[]
      ensures id.Some? ==> IsLatest(rows, rows.Keys, id.value)
    {
      if rows == map[] {
        return None;
      }
      LatestExists(rows, rows.Keys);
      var j :| IsLatest(rows, rows.Keys, j);
      id := Some(j);
    }

    /** `get_running_scan_job`: the most recently started running job, or None. */
    method GetRunningScanJob() returns (id: Option<nat>)
      ensures id.None? <==> RunningIds(rows) == {}
      ensures id.Some? ==> IsLatest(rows, RunningIds(rows), id.value) && rows[id.value].status == Running
    {
      var running := RunningIds(rows);
      if running == {} {
        return None;
      }
      LatestExists(rows, running);
      var j :| IsLatest(rows, running, j);
      id := Some(j);
    }

    /** `stop_running_scan_job`: flags every running job for cancellation;
        true iff at least one row changed. */
    method StopRunningScanJob() returns (stopped: bool)
      requires Valid()
      modifies this
      ensures Valid()
      ensures stopped <==> RunningIds(old(rows)) != {}
      ensures rows.Keys == old(rows).Keys
      ensures forall id :: id in rows ==>
                rows[id] == if old(rows)[id].status == Running then old(rows)[id].(cancelRequested := true) else old(rows)[id]
    {
      stopped := RunningIds(rows) != {};
      rows := map id | id in rows :: if rows[id].status == Running then rows[id].(cancelRequested := true) else rows[id];
    }

    /** `check_scan_cancellation`: the job's flag, false for an unknown id. */
    method CheckScanCancellation(jobId: nat) returns (cancel: bool)
      ensures cancel <==> jobId in rows && rows[jobId].cancelRequested
    {
      cancel := jobId in rows && rows[jobId].cancelRequested;
    }

    /** Start-up cleanup: every job left 'running' by a crash becomes 'failed'
        with a fixed message written as plain text. */
    method CleanupStuckScans()
      requires Valid()
      modifies this
      ensures Valid()
      ensures RunningIds(rows) == {}
      ensures rows.Keys == old(rows).Keys
      ensures forall id :: id in rows ==>
                rows[id] == if old(rows)[id].status == Running
                            then old(rows)[id].(status := Failed, errors := Some(RawText("Scan interrupted (server restart or crash)")))
                            else old(rows)[id]
    {
      rows := map id | id in rows ::
        if rows[id].status == Running
        then rows[id].(status := Failed, errors := Some(RawText("Scan interrupted (server restart or crash)")))
        else rows[id];
    }

    /** `POST /scan`: 404 when the comics directory does not exist (the
        existence test is the parameter `dirExists`), then 409 while a job is
        running, otherwise the scan is started (200). */
    method ScanRequestStatus(dirExists: bool) returns (code: nat)
      ensures code == 404 <==> !dirExists
      ensures code == 409 <==> dirExists && RunningIds(rows) != {}
      ensures code == 200 <==> dirExists && RunningIds(rows) == {}
    {
      if !dirExists {
        return 404;
      }
      var running := GetRunningScanJob();
      code := if running.Some? then 409 else 200;
    }
  }

  /** After cleanup, the interrupted jobs report their message as text, since it is not JSON. */
  lemma CleanupMessageStaysText()
    ensures ParseErrors(Some(RawText("Scan interrupted (server restart or crash)")))
            == Undecoded("Scan interrupted (server restart or crash)")
  {
  }
}
