/** The drivers of `scanner/tasks.py`: phase two run to completion over the
    pending queue, and the full scan and rescan that chain the two phases. The
    specifications they are proved against live in `ScanTasks`. */
module LibraryTasks {
  import opened Text
  import opened Wrappers
  import opened Collections
  import opened Json
  import opened ScannerUtils
  import opened Archives
  import opened Comics
  import opened SeriesStore
  import opened ScanJobs
  import opened TagTaxonomy
  import opened ScanTasks

  /** Lines 192-194: the job's total is the number of pending comics and its
      processed counter starts again from zero. */
  method StartReport(jobs: ScanJobsTable, jobId: Option<nat>, total: nat)
    requires jobs.Valid()
    modifies jobs
    ensures jobs.Valid() && JobsReport(old(jobs.rows), jobs.rows, jobId, total, NoTally, [])
  {
    if jobId.Some? {
      jobs.SetTotal(jobId.value, total, true);
    }
  }

  /** Lines 204-245 for one batch: takes at most 100 pending comics and, unless
      there are none, inspects them and reports the batch on the job; `more` says
      whether a batch was taken. */
  method DrainBatch(comics: ComicsTable, jobs: ScanJobsTable, jobId: Option<nat>,
                    archives: Path -> Archive, saves: Path -> (String -> SaveOutcome), total: nat,
                    t: Tally, errs: seq<Json>, ghost rows0: map<Path, ComicRow>, ghost jobs0: map<nat, JobRow>,
                    ghost done: seq<Path>)
    returns (more: bool, t': Tally, errs': seq<Json>, ghost done': seq<Path>)
    requires jobs.Valid() && PhaseTwoInv(rows0, comics.rows, done, ScanFn(archives, saves), t, errs)
    requires JobsReport(jobs0, jobs.rows, jobId, total, t, errs)
    modifies comics, jobs
    ensures jobs.Valid() && PhaseTwoInv(rows0, comics.rows, done', ScanFn(archives, saves), t', errs')
    ensures JobsReport(jobs0, jobs.rows, jobId, total, t', errs')
    ensures more ==> |PendingIds(comics.rows)| < old(|PendingIds(comics.rows)|)
    ensures !more ==> PendingIds(comics.rows) == {}
  {
    var pending := comics.GetPendingComics(100);
    if pending == [] {
      return false, t, errs, done;
    }
    t', errs' := InspectBatch(comics, pending, archives, saves, t, errs, rows0, done);
    done' := done + pending;
    ReportBatch(jobs, jobId, pending[|pending| - 1], t', errs', jobs0, total, t, errs);
    more := true;
  }

  /** Lines 203-245: takes batches until none is left. */
  method DrainQueue(comics: ComicsTable, jobs: ScanJobsTable, jobId: Option<nat>,
                    archives: Path -> Archive, saves: Path -> (String -> SaveOutcome), total: nat,
                    ghost rows0: map<Path, ComicRow>, ghost jobs0: map<nat, JobRow>)
    returns (t: Tally, errs: seq<Json>, ghost done: seq<Path>)
    requires jobs.Valid() && PhaseTwoInv(rows0, comics.rows, [], ScanFn(archives, saves), NoTally, [])
    requires JobsReport(jobs0, jobs.rows, jobId, total, NoTally, [])
    modifies comics, jobs
    ensures PendingIds(comics.rows) == {} && PhaseTwoInv(rows0, comics.rows, done, ScanFn(archives, saves), t, errs)
    ensures jobs.Valid() && JobsReport(jobs0, jobs.rows, jobId, total, t, errs)
  {
    t, errs, done := NoTally, [], [];
    var more := true;
    while more
      invariant jobs.Valid()
      invariant PhaseTwoInv(rows0, comics.rows, done, ScanFn(archives, saves), t, errs)
      invariant JobsReport(jobs0, jobs.rows, jobId, total, t, errs)
      invariant !more ==> PendingIds(comics.rows) == {}
      decreases |PendingIds(comics.rows)| + (if more then 1 else 0)
    {
      more, t, errs, done := DrainBatch(comics, jobs, jobId, archives, saves, total, t, errs, rows0, jobs0, done);
    }
  }

  /** `process_library_task` (lines 180-249): inspects the pending comics in
      batches of 100 until none is left, reporting each batch on the job, then
      completes the job with the error log. Archive contents and cover saving are
      the parameters `archives` and `saves`; `now` is the completion time. */
  method ProcessLibrary(comics: ComicsTable, jobs: ScanJobsTable, jobId: Option<nat>,
                        archives: Path -> Archive, saves: Path -> (String -> SaveOutcome), now: int)
    returns (t: Tally, errs: seq<Json>)
    requires jobs.Valid()
    modifies comics, jobs
    ensures PendingIds(comics.rows) == {}
    ensures PhaseTwoResult(old(comics.rows), comics.rows, ScanFn(archives, saves), t, errs)
    ensures jobs.Valid() && JobFinished(old(jobs.rows), jobs.rows, jobId, now, t, errs)
  {
    ghost var scan := ScanFn(archives, saves);
    ghost var rows0 := comics.rows;
    var total := |PendingIds(comics.rows)|;
    t, errs := NoTally, [];
    ghost var done: seq<Path> := [];
    PhaseTwoStart(rows0, scan);
    if total == 0 {
      FinishJob(jobs, jobId, JNull, now, old(jobs.rows), t, errs);
      PhaseTwoDone(rows0, comics.rows, done, scan, t, errs);
      return;
    }
    ghost var jobs0 := jobs.rows;
    StartReport(jobs, jobId, total);
    t, errs, done := DrainQueue(comics, jobs, jobId, archives, saves, total, rows0, jobs0);
    PhaseTwoDone(rows0, comics.rows, done, scan, t, errs);
    FinishJob(jobs, jobId, CompletionErrors(errs), now, jobs0, t, errs);
  }

  /** The two phases run on job `id` (lines 259-261): the comics end up being
      exactly the archives of the walk, none left pending, and the job is completed. */
  method RunPhases(root: Path, walk: seq<DirEntry>, comics: ComicsTable, series: SeriesTable,
                   jobs: ScanJobsTable, tags: TagCache, archives: Path -> Archive,
                   saves: Path -> (String -> SaveOutcome), id: nat, now: int)
    requires WellFormedWalk(root, walk) && series.Valid() && jobs.Valid() && id in jobs.rows
    modifies comics, series, jobs, tags
    ensures series.Valid() && jobs.Valid()
    ensures comics.rows.Keys == IdsOf(Scanned(root, walk)) && PendingIds(comics.rows) == {}
    ensures jobs.rows.Keys == old(jobs.rows).Keys
    ensures forall j :: j in old(jobs.rows) && j != id ==> jobs.rows[j] == old(jobs.rows)[j]
    ensures jobs.rows[id].status == Completed && jobs.rows[id].completedAt == Some(now)
    ensures tags.systemTags.None? && tags.containment.None? && tags.lookup.None?
  {
    ghost var synced0 := comics.rows;
    var touched, deleted := SyncLibrary(root, walk, comics, series, jobs, tags, Some(id));
    SyncedKeys(synced0, Scanned(root, walk), SeriesIds(old(series.rows)));
    ghost var synced := comics.rows;
    var t, errs := ProcessLibrary(comics, jobs, Some(id), archives, saves, now);
    assert comics.rows.Keys == synced.Keys;
  }

  /** `full_scan_library_task` (lines 251-264): nothing happens while another
      scan is running; otherwise a new 'full' job is created, archives that
      yielded no pages are queued again, and both phases run on that job. The
      job that was started, if any, is returned. */
  method FullScan(root: Path, walk: seq<DirEntry>, comics: ComicsTable, series: SeriesTable,
                  jobs: ScanJobsTable, tags: TagCache, archives: Path -> Archive,
                  saves: Path -> (String -> SaveOutcome), now: int)
    returns (jobId: Option<nat>)
    requires WellFormedWalk(root, walk) && series.Valid() && jobs.Valid()
    modifies comics, series, jobs, tags
    ensures series.Valid() && jobs.Valid()
    ensures jobId.None? <==> RunningIds(old(jobs.rows)) != {}
    ensures jobId.None? ==> unchanged(comics, series, jobs, tags)
    ensures jobId.Some? ==>
              jobId.value !in old(jobs.rows) && jobId.value in jobs.rows
              && jobs.rows.Keys == old(jobs.rows).Keys + {jobId.value}
              && (forall j :: j in old(jobs.rows) ==> jobs.rows[j] == old(jobs.rows)[j])
              && jobs.rows[jobId.value].status == Completed && jobs.rows[jobId.value].completedAt == Some(now)
              && comics.rows.Keys == IdsOf(Scanned(root, walk)) && PendingIds(comics.rows) == {}
  {
    var running := jobs.GetRunningScanJob();
    if running.Some? {
      return None;
    }
    var id := jobs.CreateScanJob("full", 0, now);
    comics.RequeueEmpty();
    RunPhases(root, walk, comics, series, jobs, tags, archives, saves, id, now);
    jobId := Some(id);
  }

  /** `rescan_library_task` (lines 266-278): every comic and every series is
      deleted, then a full scan runs, so every archive of the walk comes back
      as a new comic. */
  method Rescan(root: Path, walk: seq<DirEntry>, comics: ComicsTable, series: SeriesTable,
                jobs: ScanJobsTable, tags: TagCache, archives: Path -> Archive,
                saves: Path -> (String -> SaveOutcome), now: int)
    returns (jobId: Option<nat>)
    requires WellFormedWalk(root, walk) && series.Valid() && jobs.Valid()
    modifies comics, series, jobs, tags
    ensures series.Valid() && jobs.Valid()
    ensures jobId.None? <==> RunningIds(old(jobs.rows)) != {}
    ensures jobId.None? ==> comics.rows == map[] && series.rows == map[] && unchanged(jobs, tags)
    ensures jobId.Some? ==>
              jobId.value !in old(jobs.rows) && jobId.value in jobs.rows && jobs.rows[jobId.value].status == Completed
              && comics.rows.Keys == IdsOf(Scanned(root, walk)) && PendingIds(comics.rows) == {}
  {
    comics.DeleteAll();
    series.DeleteAll();
    jobId := FullScan(root, walk, comics, series, jobs, tags, archives, saves, now);
  }
}
