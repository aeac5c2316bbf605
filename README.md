# Vibe-CBR-Reader core, modelled in Dafny

This project models the library indexer of Vibe-CBR-Reader, a self-hosted reader for
comic archives (`.cbz`/`.cbr`). It also models the tag taxonomy and the small tables
around the indexer. The indexer runs in two phases:

- **Phase one (sync)** walks the comics directory and compares what it finds with the
  `comics` table. It sorts every archive into new, changed, unchanged or missing. It then
  deletes the missing rows, resets the changed rows, upserts one `series` row per series
  name, inserts the new comics and invalidates the tag cache.
- **Phase two (process)** drains the comics still marked `processed = 0`, in batches. It
  inspects each archive (page count and cover thumbnail), writes the results back, and
  keeps per-run counters and an error log in the `scan_jobs` row.

The model has these parts:

- The file-system walk is a list of directory entries, each with its parsed `series.json`
  and its files.
- An archive is the list of its entry names. Writing a thumbnail is an oracle that says
  how saving a given entry ends.
- Every database table is a class whose field is a map keyed by the table's UNIQUE column.
- The loops of the source are methods with loop invariants, proved against specification
  functions. The properties the source promises are lemmas about those functions.

Modules, one per source file:

| module | file | models |
|---|---|---|
| `ScannerUtils` | scanner_utils.dfy | scanner/utils.py |
| `Archives` | archives.dfy | scanner/archives.py |
| `Comics` | comics.dfy | db/comics.py and the comic-row writes of scanner/tasks.py |
| `ScanJobs` | scan_jobs.dfy | db/jobs.py |
| `SeriesStore` | series_store.dfy | `create_or_update_series` in db/series.py |
| `TagTaxonomy` | tag_taxonomy.dfy | the tag cache of db/series.py |
| `SeriesQueries` | series_queries.dfy | the search, gap report, filter metadata and tag facets of db/series.py |
| `LegacyTags` | legacy_tags.dfy | `get_series_by_tags` in database.py |
| `Progress` | progress.dfy | db/progress.py |
| `LegacyDatabase` | legacy_database.dfy | the progress and preference writes of database.py |
| `Lists` | lists.dfy | db/lists.py and the two tables of db/connection.py |
| `ListRoutes` | list_routes.dfy | routes/lists.py |
| `Libraries` | libraries.dfy | db/libraries.py |
| `Annotations` | annotations.dfy | db/annotations.py |
| `Settings` | settings.dfy | db/settings.py |
| `AiCache` | ai_cache.dfy | ai/cache.py and the `ai_recommendation_cache` table of db/connection.py |
| `AiJobs` | ai_jobs.dfy | ai/jobs.py |
| `Prompts` | prompts.dfy | `_format_series_block` and `build_recipe_prompt` in ai/prompts.py |
| `AiMatching` | ai_matching.dfy | `_normalize_unicode`, `_extract_search_names`, `_enrich_series_match` and `match_recommendation_to_library` in routes/ai.py |
| `SeriesRoutes` | series_routes.dfy | the series detail and rating handlers of routes/series.py |
| `Discovery` | discovery.dfy | the new-additions and suggestions handlers of routes/discovery.py |
| `Nsfw` | nsfw.dfy | db/nsfw.py, with `fnmatch` as a glob matcher |
| `ScanTasks` | scan_tasks.dfy | the two phases in scanner/tasks.py, as specifications and step methods |
| `LibraryTasks` | library_tasks.dfy | the scan and processing drivers of scanner/tasks.py |
| `Text`, `Collections`, `Json`, `Wrappers` | text.dfy, collections.dfy, json.dfy, wrappers.dfy | string, sequence and JSON helpers, and `Option` |

## Model

| member | source | states |
|---|---|---|
| ScannerUtils.IsCbrOrCbzIgnoresCase | scanner/utils.py:4-5 | the archive-name test gives the same answer for a name and for its lower-cased form |
| ScannerUtils.IsCbrOrCbz | scanner/utils.py:4-5 | specification predicate: the lower-cased name ends with ".cbz" or ".cbr"; its partners are IsCbrOrCbzIgnoresCase, ArchiveNameHasArchiveExt and HiddenArchiveHasNoExt |
| ScannerUtils.NaturalSortKey | scanner/utils.py:14-16 | the key has odd length and starts with a text part (`re.split` with a group); NaturalSortKeyAlternates, NaturalSortKeyTextHasNoDigits, NaturalSortKeyIgnoresCase and NaturalSortKeyOfRun state the rest |
| ScannerUtils.SplitExt | scanner/utils.py:19 | `os.path.splitext`: stem and extension concatenate back to the name, and the extension is empty or one dot followed by no other dot |
| ScannerUtils.ArchiveNameHasArchiveExt | scanner/utils.py:4-5 | a name accepted by `is_cbr_or_cbz` that has a non-dot character before its suffix has the lower-cased extension ".cbz" or ".cbr" |
| ScannerUtils.HiddenArchiveHasNoExt | scanner/utils.py:4-5 | the name ".cbz" passes the archive test but has an empty extension, so the inspector treats it as neither kind |
| ScannerUtils.NaturalSortKeyAlternates | scanner/utils.py:14-16 | a natural-sort key has odd length, with text parts at even positions and numbers at odd positions |
| ScannerUtils.NaturalSortKeyTextHasNoDigits | scanner/utils.py:14-16 | the text parts of a key contain no digit: every digit run became a number |
| ScannerUtils.NaturalSortKeyIgnoresCase | scanner/utils.py:16 | key(s) == key(lower(s)) |
| ScannerUtils.NaturalSortKeyOfRun | scanner/utils.py:14-16 | the key of text + maximal digit run + rest is [lower(text), value(digits)] followed by the key of the rest |
| ScannerUtils.SmallerNumberSortsFirst | scanner/utils.py:14-16 | with the same text before them, a smaller number sorts first whatever follows it ("page2" before "page10") |
| ScannerUtils.NaturalKeysSameShape | scanner/utils.py:14-16 | any two natural keys have text and number parts in the same positions, so Python's list comparison never compares a string with an int |
| ScannerUtils.KeyLessIrreflexive | scanner/utils.py:14-16 | list comparison of keys is irreflexive |
| ScannerUtils.KeyLessTransitive | scanner/utils.py:14-16 | list comparison of natural keys is transitive |
| ScannerUtils.KeyLessTotal | scanner/utils.py:14-16 | any two natural keys are equal or ordered one way |
| ScannerUtils.KeyLessAsymmetric | scanner/utils.py:14-16 | list comparison of keys is asymmetric |
| ScannerUtils.FirstInNaturalOrder | scanner/archives.py:87-88 | the first name after a stable sort by natural key: its key is below every earlier name's and no later name's key is below it |
| ScannerUtils.Search | scanner/utils.py:23-32 | `re.search`: the leftmost index at which the pattern matches, with the number it captured, or no match anywhere |
| ScannerUtils.ParseFilenameInfo | scanner/utils.py:18-36 | the volume is the value of the leftmost `v`/`vol` match in the stem (no earlier position matches) and nothing when there is none; the chapter is the first chapter-token match when there is one; with a volume and no chapter token the chapter stays empty |
| ScannerUtils.TrailingNumberOnlyAsFallback | scanner/utils.py:31-34 | with neither a volume nor a chapter token, the result is (None, the trailing " <number>" if any) |
| ScannerUtils.ExtensionIgnored | scanner/utils.py:19 | only the stem is parsed: any single extension gives the same result as ".cbz" |
| Archives.ImageNames | scanner/archives.py:84 | the pages are the entry names, in order, whose lower-cased form ends with an image extension; no more than the entries, all of them when all are images |
| Archives.Basename | scanner/archives.py:67 | `os.path.basename`: a suffix of the path containing no '/' |
| Archives.SaveThumbnail | scanner/archives.py:9-25 | True exactly when the image was saved, False exactly when there is no cache path, otherwise the text "Thumbnail error: <entry> - …" |
| Archives.ExtractCoverImage | scanner/archives.py:27-58 | True exactly for a ".cbz"/".cbr" archive that lists an image whose natural-first image was saved; the error text only when saving that image raised |
| Archives.SingleComicScan | scanner/archives.py:60-110 | the result record: a missing file gives pages 0, one "Comic file not found" error and file_missing; another extension gives nothing; an unreadable archive gives one "Error processing" line; pages is the image count; has_thumb agrees with the cover extraction; at most one error; an archive without images has no error and no thumbnail; when opening the cover entry raises, the one error is "Error processing <path>: <reason>"; when saving it fails, the one error is the text `save_thumbnail` returns |
| Archives.ProcessSingleComic | scanner/archives.py:60-110 | the step-by-step filling of the result record ends in `SingleComicScan` |
| Archives.CoverIsFirstImage | scanner/archives.py:86-88 | the cover is an image entry of the archive and no image entry sorts before it |
| Archives.Cover | scanner/archives.py:86-88 | the cover is one of the archive's image names; CoverIsFirstImage adds that none sorts before it |
| Archives.ThumbnailErrorIsTruthy | scanner/archives.py:41 | when saving the cover raises, `extract_cover_image` returns the error text, though it is declared to return a bool |
| Archives.CoverSaved | scanner/archives.py:27-31 | the documented outcome: true exactly when the cover was saved |
| Comics.PendingIds | db/comics.py:24-28 | the ids of the rows with `processed = 0` |
| Comics.ApplyScanWrites | scanner/tasks.py:231 | running the phase-two UPDATE tuple by tuple keeps the set of rows |
| Comics.ApplyResets | scanner/tasks.py:128-132 | running the phase-one reset tuple by tuple keeps the set of rows |
| Comics.ScanWritesShrinkPending | scanner/tasks.py:231 | after the writes, the pending set is the old one minus the written ids |
| Comics.ScanWritesFrame | scanner/tasks.py:231 | a row no tuple names is unchanged |
| Comics.ScanWritesHit | scanner/tasks.py:231 | with distinct ids, a written row gets its pages, processed = 1 and has_thumbnail from its tuple, and keeps every other column |
| Comics.BatchPending | scanner/tasks.py:206-231 | writing back a batch of distinct pending comics removes exactly them from the pending set, which shrinks by the batch size |
| Comics.BatchRows | scanner/tasks.py:206-231 | after a batch, each row is inspected if it was in the batch and unchanged otherwise |
| Comics.DrainedStep | scanner/tasks.py:206-244 | one more batch of pending comics keeps the drain invariant: rows kept, each comic done at most once, done plus pending equals pending at the start |
| Comics.DrainedAll | scanner/tasks.py:206-208 | once nothing is pending, the comics written are exactly the ones pending at the start, and only their rows changed |
| Comics.ComicsTable.DeleteByIds | db/comics.py:5-17 | the rows whose id is listed are deleted and no others; an empty list changes nothing |
| Comics.ComicsTable.GetPendingComics | db/comics.py:19-31 | min(limit, number pending) distinct ids, all pending |
| Comics.ComicsTable.UpdateComicMetadata | db/comics.py:33-42 | sets pages, and processed and has_thumbnail both to `processed`, on the row with that id, if any |
| Comics.ComicsTable.WriteScanResults | scanner/tasks.py:231 | the table after the `executemany` of phase-two tuples |
| Comics.ComicsTable.ResetChanged | scanner/tasks.py:126-133 | the table after the `executemany` of phase-one resets |
| Comics.ComicsTable.Insert | scanner/tasks.py:158-171 | a new comic row is added under a fresh id |
| Comics.ComicsTable.RequeueEmpty | scanner/tasks.py:256 | exactly the processed rows with no or zero pages go back to `processed = 0` |
| Comics.ComicsTable.DeleteAll | scanner/tasks.py:271 | the table is empty |
| Json.Dumps | db/jobs.py:57 | `json.dumps` with `ensure_ascii` (the default here) writes non-empty, printable ASCII text whatever the strings hold; without it only control characters, the quote and the backslash are escaped (EscapeChar) |
| ScanJobs.DefaultMetrics | db/jobs.py:9-13 | a new job has every counter column at 0 and no current file or phase |
| ScanJobs.StoredErrors | db/jobs.py:25 | the errors column is written exactly when the error value is truthy |
| ScanJobs.ParseErrors | db/jobs.py:69-78 | a stored JSON text is decoded; no errors stay none |
| ScanJobs.Whitelisted | db/jobs.py:33-42 | only whitelisted metric columns are written, and every whitelisted keyword with a non-None value is |
| ScanJobs.WhitelistedFour | db/jobs.py:33-42 | four whitelisted keywords with values give a map of exactly those four |
| ScanJobs.WhitelistIgnores | db/jobs.py:39-42 | a keyword outside the whitelist, or given only as None, is never written |
| ScanJobs.LatestExists | db/jobs.py:94 | a non-empty set of jobs has a latest one, so `ORDER BY started_at DESC LIMIT 1` returns a row |
| ScanJobs.ScanJobsTable.CreateScanJob | db/jobs.py:6-18 | a new running job under a fresh positive id, with the given type and total, and nothing else changes |
| ScanJobs.ScanJobsTable.UpdateScanProgress | db/jobs.py:20-50 | the job's processed count and errors are replaced and the whitelisted metrics merged in; an unknown id changes nothing |
| ScanJobs.ScanJobsTable.SetTotal | scanner/tasks.py:193 | the job's total is set and, when asked, its processed count reset to 0 |
| ScanJobs.ScanJobsTable.RecordBatch | scanner/tasks.py:234-243 | the job's processed count, current file, phase, four counters and error list after a batch |
| ScanJobs.ScanJobsTable.CompleteScanJob | db/jobs.py:52-67 | the job gets its final status, a completion time and the encoded errors |
| ScanJobs.ScanJobsTable.GetScanStatus | db/jobs.py:80-88 | the job's row with its errors decoded, or nothing for an unknown id |
| ScanJobs.ScanJobsTable.GetLatestScanJob | db/jobs.py:90-97 | nothing exactly when there are no jobs, else a job started no earlier than any other |
| ScanJobs.ScanJobsTable.GetRunningScanJob | db/jobs.py:99-106 | nothing exactly when no job is running, else the latest running job |
| ScanJobs.ScanJobsTable.StopRunningScanJob | db/jobs.py:108-117 | every running job gets `cancel_requested`, no other row changes, and the result says whether one did |
| ScanJobs.ScanJobsTable.CheckScanCancellation | db/jobs.py:119-127 | true exactly when the job exists and has `cancel_requested` |
| ScanJobs.ScanJobsTable.CleanupStuckScans | routes/library.py:31-43 | every running job becomes failed with the "Scan interrupted" text, no other row changes, and no job is left running |
| ScanJobs.ScanJobsTable.ScanRequestStatus | routes/library.py:161-174 | a scan request is refused with 404 exactly when the comics directory is missing, else with 409 exactly when a job is running, and is started (200) exactly when the directory exists and no job runs |
| ScanJobs.CleanupMessageStaysText | db/jobs.py:73-77 | the interruption text is not JSON, so reading the job back keeps it as plain text |
| SeriesStore.ToCell | db/series.py:18-23 | None binds NULL, and a list binds its JSON text |
| SeriesStore.IncomingColumns | db/series.py:52-71 | the upsert binds exactly the non-NULL metadata columns, plus category, subcategory and cover when given |
| SeriesStore.Coalesce | db/series.py:30-51 | `COALESCE(?, column)`: a bound value replaces the column, an unbound column keeps its value |
| SeriesStore.CoalesceIdempotent | db/series.py:30-51 | upserting the same values twice leaves what upserting them once left |
| SeriesStore.CoalesceNeverClears | db/series.py:30-51 | an update never sets a stored column back to NULL |
| SeriesStore.SeriesTable.CreateOrUpdate | db/series.py:8-109 | an existing name keeps its id and gets the COALESCE of its columns; a new name gets a fresh id and exactly the bound columns; no other series changes |
| SeriesStore.SeriesTable.DeleteAll | scanner/tasks.py:272 | the table is empty |
| TagTaxonomy.NormalizeTagIdempotent | db/series.py:248-250 | normalising a normalised tag changes nothing |
| TagTaxonomy.NormalizeTagIgnoresCase | db/series.py:248-250 | a tag and its lower-cased form normalise alike |
| TagTaxonomy.NormalizeTag | db/series.py:248-250 | a normalised tag has no upper-case letter; NormalizeTagIdempotent and NormalizeTagIgnoresCase are its partners |
| TagTaxonomy.Combined | db/series.py:254-259 | a row contributes genres, tags and demographics in that order; a genres column that fails to decode contributes nothing |
| TagTaxonomy.SystemTagsDisplay | db/series.py:261-267 | a tag is in `system_tags` exactly when some non-empty spelling normalises to it, and its display is the first capitalised spelling if any, else the first spelling |
| TagTaxonomy.DisplayNormalises | db/series.py:261-267 | the display kept for a tag is one of its own spellings |
| TagTaxonomy.CapitalisedWins | db/series.py:266-267 | once any spelling of a tag starts upper-case, the kept display starts upper-case |
| TagTaxonomy.KeyOrderIsKeys | db/series.py:264-265 | the dictionary's key order lists each tag once |
| TagTaxonomy.SortStrings | db/series.py:269 | `sorted`: a strictly increasing permutation of distinct strings |
| TagTaxonomy.AllNorms | db/series.py:269 | `all_norms` is strictly sorted and holds exactly the keys of `system_tags` |
| TagTaxonomy.ParentsInMembers | db/series.py:271-276 | p is recorded as a parent of c exactly when c has several words, p is shorter and p occurs in c between word boundaries |
| TagTaxonomy.ContainmentOf | db/series.py:270-276 | the map has an entry for exactly the children with a parent, holding all their parents |
| TagTaxonomy.Containment | db/series.py:270-276 | the containment map of all tags, entry by entry |
| TagTaxonomy.ContainmentIsStrict | db/series.py:272-276 | a parent is strictly shorter than its multi-word child, so containment has no cycle of length one or two |
| TagTaxonomy.SingleWordHasNoParents | db/series.py:272 | a one-word tag has no parents |
| TagTaxonomy.LastWordIsParent | db/series.py:269-276 | a word tag is a parent of "w <tag>", as "fantasy" of "isekai fantasy" |
| TagTaxonomy.FirstWordIsParent | db/series.py:269-276 | a word tag is a parent of "<tag> w" |
| TagTaxonomy.NoMatchInsideLongerWord | db/series.py:275 | an occurrence followed by another word character is not at a word boundary |
| TagTaxonomy.LookupMembers | db/series.py:278-282 | a tag is listed under w exactly when it has three or more characters and w is its first word; no list is empty |
| TagTaxonomy.TagCache.Refresh | db/series.py:234-287 | a cache already built is left alone; otherwise all three structures are built from the rows and the time is stamped |
| TagTaxonomy.TagCache.Invalidate | db/series.py:292-298 | all three structures become null and the time 0, so the next use rebuilds |
| TagTaxonomy.BuildSystemTags | db/series.py:252-267 | the loop over rows builds `system_tags` and its key order |
| TagTaxonomy.AddRowSpellings | db/series.py:261-267 | the loop over one row's spellings extends the map and the key order by those spellings |
| TagTaxonomy.AddOneSpelling | db/series.py:262-267 | one spelling: skipped when empty, added when new, replaced when capitalised over a lower-case one |
| TagTaxonomy.BuildContainment | db/series.py:270-276 | the nested loop builds the containment map |
| TagTaxonomy.CollectParents | db/series.py:273-276 | the inner loop collects the shorter tags found as whole words in the child |
| TagTaxonomy.BuildLookup | db/series.py:278-282 | the loop builds the first-word index |
| ScanTasks.InheritedIsNearest | scanner/tasks.py:43-54 | a directory inherits nothing exactly when no directory from it up to the root has cached metadata, else the metadata of the nearest one |
| ScanTasks.CacheOfMembers | scanner/tasks.py:45-47 | the cache holds exactly the visited directories that have a `series.json`, with their metadata |
| ScanTasks.NearestSidecarWins | scanner/tasks.py:43-54 | in a top-down walk, what a directory gets while walking equals the nearest `series.json` at or above it in the whole walk |
| ScanTasks.InheritMetadata | scanner/tasks.py:48-54 | the ancestor loop, bounded by the library root, returns the inherited metadata |
| ScanTasks.RootLibraryWalkNeverEnds | scanner/tasks.py:49-54 | as written, with the file-system root as library root and no metadata on the way up, the ancestor loop never ends |
| ScanTasks.AncestorWalkAgrees | scanner/tasks.py:49-54 | for a library root other than the file-system root, the loop as written ends and agrees with the bounded walk |
| ScanTasks.FirstCleanupMatch | scanner/tasks.py:81 | the leftmost index where the volume/chapter suffix pattern matches, or none; a match needs a digit after the word and no newline after it except a final one, since `.` stops at a newline and `$` matches only at the end or before a final newline |
| ScanTasks.NewlineAfterNumberKept | scanner/tasks.py:81 | in "A v1\nB" the " v1" does not match, because another line follows the number |
| ScanTasks.FinalNewlineCut | scanner/tasks.py:80-81 | the stem "A v1\n" gives the series name "A": a final newline does not stop the match |
| ScanTasks.SeriesFromStem | scanner/tasks.py:80-81 | the stem up to the first suffix match, stripped |
| ScanTasks.MetaText | scanner/tasks.py:84 | a metadata value is used only when it is non-empty text (weaker than the source for other truthy values: see Left out) |
| ScanTasks.SeriesName | scanner/tasks.py:78-84 | the metadata `series`, else its `title`, else the third path component, else the cleaned stem |
| ScanTasks.Discover | scanner/tasks.py:56-93 | the record of one archive: id, name, size and mtime from the file; category the first component or "Uncategorized"; subcategory the second or None; the series name; the parsed volume and chapter |
| ScanTasks.ArchivesInFacts | scanner/tasks.py:58-63 | the archives of one directory have distinct ids, each a file of that directory |
| ScanTasks.ScannedParents | scanner/tasks.py:39-63 | every scanned archive lies in a walked directory |
| ScanTasks.ScannedDistinct | scanner/tasks.py:39-63 | the scanned archives have distinct ids |
| ScanTasks.Scanned | scanner/tasks.py:39-63 | specification function of the walk: every archive with the metadata its directory had; ScannedParents and ScannedDistinct state it |
| ScanTasks.KindMembers | scanner/tasks.py:69-74 | an archive is new exactly when its id is not stored, changed exactly when stored with another mtime or size, touched when new or changed |
| ScanTasks.FilteredDistinct | scanner/tasks.py:95-96 | the new list and the changed list have distinct ids |
| ScanTasks.FirstSeenIsCover | scanner/tasks.py:98-102 | the first touched archive of a series is that series' cover candidate |
| ScanTasks.SeedsMembers | scanner/tasks.py:98-102 | `series_map` has exactly the series of the touched archives, each with one of its own archives |
| ScanTasks.SeedOrderIsKeys | scanner/tasks.py:98-102 | the order of `series_map` lists each of its keys once |
| ScanTasks.Kept | scanner/tasks.py:118-124 | after the deletion the stored ids are those still on disk |
| ScanTasks.ResetsOf | scanner/tasks.py:127 | one reset tuple per changed archive, with its new size and mtime |
| ScanTasks.InsertAll | scanner/tasks.py:149-171 | inserting the new archives adds exactly their ids |
| ScanTasks.InsertAllEffect | scanner/tasks.py:149-171 | a new archive's row is its record with NULL pages and processed = 0; other rows are unchanged |
| ScanTasks.ResetsEffect | scanner/tasks.py:126-133 | a changed row gets its new size and mtime and pages NULL, processed 0, has_thumbnail 0; no other column changes |
| ScanTasks.SyncedKeys | scanner/tasks.py:18-178 | after a sync the stored ids are exactly the archives on disk |
| ScanTasks.SyncedRowsAgree | scanner/tasks.py:18-178 | after a sync every archive's row carries its on-disk mtime and size |
| ScanTasks.SyncedRowAgrees | scanner/tasks.py:18-178 | the same, for one archive |
| ScanTasks.SyncedRows | scanner/tasks.py:114-171 | specification function of the comics table after phase one; SyncedKeys, SyncedRowsAgree and SyncLibrary are its partners |
| ScanTasks.ResetRowAgrees | scanner/tasks.py:118-133 | after deletion and resets, every archive already stored carries its on-disk mtime and size |
| ScanTasks.ResyncIsQuiet | scanner/tasks.py:69-74 | a second sync of the same walk finds nothing new, changed or missing |
| ScanTasks.NothingToDo | scanner/tasks.py:69-74 | when every archive is stored with its mtime and size, nothing is new or changed |
| ScanTasks.ExtendFacts | scanner/tasks.py:59-96 | one more archive adds its id to the on-disk set and joins the new or changed list according to its kind |
| ScanTasks.SeedsExtend | scanner/tasks.py:98-102 | one more touched archive enters `series_map` only when its series is not there yet |
| ScanTasks.VisitArchiveStep | scanner/tasks.py:59-102 | the loop body's update of the walk state matches the specification of the longer walk |
| ScanTasks.ReportSyncProgress | scanner/tasks.py:104-112 | when a job is given and the file count is a multiple of 50, that job's row becomes `SyncReport` of its old row: total and processed the file count, errors cleared, and the metrics current_file, phase, new_comics and changed_comics written; otherwise no row changes; other jobs are untouched |
| ScanTasks.WalkDirectory | scanner/tasks.py:58-112 | the loop over one directory's files computes the walk state of the walk so far plus that directory, and leaves the job row as `Reported` for the archives seen so far; other jobs are untouched |
| ScanTasks.WalkLibrary | scanner/tasks.py:39-112 | the walk loop computes the walk state of the whole walk; the job's row is `Reported` over all scanned archives (its last report is that of the last multiple of 50); no other job changes |
| ScanTasks.SyncMetricsWritten | scanner/tasks.py:105-110 | the four keyword metrics of the progress call all pass the column whitelist, so the row gets exactly those four |
| ScanTasks.SyncReportFacts | scanner/tasks.py:104-112 | a report sets total and processed to the file count, clears errors, writes current_file, phase "Phase 1: Syncing", new_comics and changed_comics, keeps every other metric and every other column |
| ScanTasks.ReportedBefore50 | scanner/tasks.py:104 | before the 50th archive the job row is not touched |
| ScanTasks.ReportedAtMultiple | scanner/tasks.py:104-112 | right after the n-th archive, n a positive multiple of 50, the job reports n and that archive's file name |
| ScanTasks.ReportedIsLastMultiple | scanner/tasks.py:104-112 | from the 50th archive on, the job reports the last multiple of 50 reached and the name of the archive that reached it |
| ScanTasks.ReportedStep | scanner/tasks.py:59-112 | one more archive reports exactly when the new count is a multiple of 50, with the counts of new and changed archives so far |
| ScanTasks.ReportFollows | scanner/tasks.py:104-112 | a progress call after one more archive keeps the job row equal to `Reported` of the longer list |
| ScanTasks.VisitFile | scanner/tasks.py:58-112 | one file: an archive extends the walk state and may report progress; any other file changes nothing, and no report is made for it |
| ScanTasks.UpsertOne | scanner/tasks.py:137-146 | one upsert keeps the upsert invariant and records the series id |
| ScanTasks.UpsertSeries | scanner/tasks.py:135-147 | every name of `series_map` is upserted with its first archive's metadata, category, subcategory and cover, and the id map holds their ids |
| ScanTasks.InsertNewComics | scanner/tasks.py:149-171 | the insert loop adds the new comics |
| ScanTasks.DeleteKeepsOnDisk | scanner/tasks.py:118-121 | deleting the stored ids missing from disk keeps exactly the rows on disk |
| ScanTasks.ReportDeleted | scanner/tasks.py:122-123 | the job row becomes its old row with processed set to the file count, errors cleared and `deleted_comics` set to the deleted count, every other column and metric kept; a missing job changes nothing |
| ScanTasks.PurgeMissing | scanner/tasks.py:118-121 | the rows not on disk are deleted, and their number is returned |
| ScanTasks.DeleteMissing | scanner/tasks.py:114-124 | the missing rows are deleted; the job row becomes its old row with the total set to the file count and, when any were deleted, processed set to the file count, errors cleared and `deleted_comics` recorded; nothing else in it changes |
| ScanTasks.AddNewComics | scanner/tasks.py:135-171 | the series are upserted, then the new comics inserted with their series ids |
| ScanTasks.WriteBack | scanner/tasks.py:126-175 | resets, then upserts and inserts when there are new comics, then the tag cache is invalidated |
| ScanTasks.ApplySync | scanner/tasks.py:114-178 | the database after the deletion, resets, upserts and inserts, and the returned counts |
| ScanTasks.SyncLibrary | scanner/tasks.py:18-178 | the comics table becomes the specified synced table, the counts are the numbers touched and deleted, series are upserted when anything is new, and the tag cache is invalidated |
| ScanTasks.CountMatchesWrite | scanner/tasks.py:214-225 | one result adds 1 to processed, 1 to pages_done exactly when the written pages are positive, and 1 to thumb_done exactly when the written thumbnail flag is set; the counters stay balanced |
| ScanTasks.CountAllBalanced | scanner/tasks.py:214-225 | pages_done + pages_err = thumb_done + thumb_err = processed_count, which grows by the number of results |
| ScanTasks.CountAllConcat | scanner/tasks.py:213-225 | counting two lists of results in turn equals counting their concatenation |
| ScanTasks.ErrorsOfMembers | scanner/tasks.py:227-228 | the error log holds one record for exactly the results with errors |
| ScanTasks.ErrorsOfConcat | scanner/tasks.py:227-228 | the log of two lists of results is the concatenation of their logs |
| ScanTasks.CountResult | scanner/tasks.py:215-224 | the counter update of one result |
| ScanTasks.ProcessBatch | scanner/tasks.py:210-228 | one batch gives the update tuples of its comics, the counters advanced over their results, and the log extended by their error records |
| ScanTasks.ErrorsOfDrained | scanner/tasks.py:227-228 | after draining, the log holds a record for exactly the pending comics whose inspection reported errors |
| ScanTasks.PhaseTwoStart | scanner/tasks.py:196-203 | before the first batch, the phase-two invariant holds with zero counters and an empty log |
| ScanTasks.PhaseTwoStep | scanner/tasks.py:206-244 | one batch of distinct pending comics keeps the phase-two invariant |
| ScanTasks.TallyOfDone | scanner/tasks.py:198-225 | the counters of a run count each inspected comic once and stay balanced |
| ScanTasks.DrainedRows | scanner/tasks.py:206-244 | once nothing is pending, each comic pending at the start carries its inspection result and every other row is unchanged |
| ScanTasks.DrainedTally | scanner/tasks.py:206-244 | once nothing is pending, processed_count is the number pending at the start |
| ScanTasks.DrainedErrors | scanner/tasks.py:206-244 | once nothing is pending, the log holds exactly the error records of the comics pending at the start |
| ScanTasks.PhaseTwoDone | scanner/tasks.py:206-246 | the drained invariant gives the result of phase two |
| ScanTasks.RecordedReports | scanner/tasks.py:234-243 | the batch update writes the counters and the log of the run so far |
| ScanTasks.CompletedReports | scanner/tasks.py:248-249 | completing the job keeps the counters written by the last batch |
| ScanTasks.InspectBatch | scanner/tasks.py:210-231 | inspecting a batch and writing it back keeps the phase-two invariant |
| ScanTasks.ReportBatch | scanner/tasks.py:232-243 | the job row reports the counters and log after the batch |
| ScanTasks.FinishJob | scanner/tasks.py:248-249 | the job is completed with its errors stored as the progress updates stored them (the corrected argument of the Findings row, see Left out) |
| ScanTasks.CompletionDoubleEncoded | scanner/tasks.py:249 | as written, a completed job with errors reads back as one JSON string, not as the list of records the progress updates stored |
| ScanTasks.CompletionMatchesProgress | scanner/tasks.py:249 | corrected, a completed job stores and reads back the same list of records as the last progress update |
| LibraryTasks.StartReport | scanner/tasks.py:192-194 | the job's total becomes the pending count and its processed count 0 |
| LibraryTasks.DrainBatch | scanner/tasks.py:207-244 | one batch keeps the phase-two invariant and the job report, and either the pending set shrank or nothing was pending |
| LibraryTasks.DrainQueue | scanner/tasks.py:205-246 | the batch loop ends with nothing pending, the invariant kept and the job reporting the run |
| LibraryTasks.ProcessLibrary | scanner/tasks.py:180-249 | phase two leaves nothing pending, every pending comic inspected and written, balanced counters and the full error log, and the job completed with the corrected error argument (see Left out) |
| LibraryTasks.RunPhases | scanner/tasks.py:259-261 | the two phases leave exactly the archives on disk stored, nothing pending, the job completed and the tag cache invalidated |
| LibraryTasks.FullScan | scanner/tasks.py:251-264 | does nothing when a job is running; otherwise creates a fresh job, requeues the empty rows and runs both phases, which leave the archives on disk stored, nothing pending and the job completed |
| LibraryTasks.Rescan | scanner/tasks.py:266-278 | empties the comics and series tables, then runs a full scan |
| SeriesQueries.MetaWordsMembers | db/series.py:554 | a word of `findall(r'\w+')` is exactly a non-empty run of word characters occurring in the text with a word boundary on both sides |
| SeriesQueries.DetectedMembers | db/series.py:553-562 | with the lookup index of the known tags, a tag is detected iff it is known, has three or more characters, occurs as whole words, and its first word is one of the text's words |
| SeriesQueries.PunctuatedFirstWordNeverDetected | db/series.py:554-557 | a tag whose first word holds a non-word character (such as "sci-fi") is never detected from the text |
| SeriesQueries.ExplicitAndParentsIncluded | db/series.py:519-551 | every non-empty explicit spelling's normal form, and each parent the containment map lists for it, is in the series' tag set |
| SeriesQueries.NothingSelectedMatchesAll | db/series.py:564 | with no tag selected every series matches |
| SeriesQueries.CollectNorms | db/series.py:548-562 | the loops build the tag set as explicit tags and detected tags, each with their parents |
| SeriesQueries.ExpandEach | db/series.py:549-551 | the loop over a copy of the explicit tags adds exactly their parents |
| SeriesQueries.DetectTags | db/series.py:556-562 | the loop over the text's words adds exactly the detected tags and their parents |
| SeriesQueries.WordTags | db/series.py:557-562 | one word of the loop adds the tags listed under it that occur in the text, with their parents, and nothing for an unlisted word |
| SeriesQueries.MatchWord | db/series.py:558-562 | the candidates listed under one word that occur as whole words, with their parents |
| SeriesQueries.FanLessIsStrictOrder | db/series.py:538-540 | the fan order (volume key with NULL and 0 last, chapter or 0, filename) is a strict order |
| SeriesQueries.FanIsFirstThree | db/series.py:534-546 | a series' fan holds at most three of its own comics, three when it has three, sorted, and no comic of it that sorts earlier is left out |
| SeriesQueries.Fan | db/series.py:534-546 | at most three comics per series (`rn <= 3`); FanIsFirstThree states which three |
| SeriesQueries.TagAll | db/series.py:517-562 | each row is paired with its tag set |
| SeriesQueries.TallySeriesAt | db/series.py:570-582 | one matching series adds the tags it carries that are not selected, and bumps each such entry's count and samples |
| SeriesQueries.CoversSnoc | db/series.py:579-580 | a cover is sampled only while fewer than three are held and the series has one |
| SeriesQueries.NamesSnoc | db/series.py:581-582 | a name (title, else name) is sampled while fewer than three are held |
| SeriesQueries.ExpectedSnoc | db/series.py:570-582 | a matching series carrying a tag extends that tag's expected entry by one series |
| SeriesQueries.StatsReference | db/series.py:570-582 | a tag has an entry iff it is not selected and some matching series carries it; the entry has the display name, the number of such series and the first three covers and names in row order |
| SeriesQueries.RelatedSamplesBounded | db/series.py:572-582 | each related tag counts at least one series, holds at most three covers and no more than its count, and min(count, 3) names |
| SeriesQueries.CoversShorter | db/series.py:579-580 | no more covers than series are collected |
| SeriesQueries.NamesLength | db/series.py:581-582 | one name is collected per series |
| SeriesQueries.NothingSelectedListsAll | db/series.py:564-569 | with no tag selected every series is listed |
| SeriesQueries.EntriesAreMatches | db/series.py:564-569 | the matching list holds exactly the entries of the series that carry every selected tag |
| SeriesQueries.RankLessIsStrictOrder | db/series.py:585 | the key `(-count, name)` is a strict order |
| SeriesQueries.Rank | db/series.py:584-585 | the related list is the entries of `tag_counts`, each once, sorted by count descending then name |
| SeriesQueries.DictOrder | db/series.py:584 | the values of the dictionary listed once each, in some order of its keys |
| SeriesQueries.ValuesBag | db/series.py:584 | with distinct display names, the listed values are the dictionary's values, each once |
| SeriesQueries.RankingIsUnique | db/series.py:584-585 | with distinct display names the sorted list does not depend on the dictionary's order |
| SeriesQueries.SystemTagKeyNormal | db/series.py:499-503 | every key of the system tags is in normal form |
| SeriesQueries.NormsAreNormal | db/series.py:548-562 | every tag in a series' tag set is in normal form |
| SeriesQueries.StatsNamesDistinct | db/series.py:574 | no two related tags share a display name |
| SeriesQueries.TallyTags | db/series.py:570-582 | the loop over one series' tags gives the tally of that series |
| SeriesQueries.TallyRows | db/series.py:548-582 | the loop over the rows gives the matching list and the tag statistics of the whole table |
| SeriesQueries.DecodeAll | db/series.py:518-521 | every row's three tag columns decode |
| SeriesQueries.SeriesByTags | db/series.py:494-587 | fails iff some tag column is not valid JSON; otherwise lists the matching series, their count, and the related tags ranked; the tag cache is rebuilt only when empty |
| SeriesQueries.PairGapsMembers | db/series.py:411-413 | the numbers reported between two values are the whole numbers strictly between them, when both are whole |
| SeriesQueries.GapsAscending | db/series.py:404-413 | gaps come out strictly ascending, strictly between the smallest and the largest value |
| SeriesQueries.GapsAreMissingNumbers | db/series.py:404-413 | with whole values, the gaps are exactly the whole numbers between the smallest and the largest value that do not occur |
| SeriesQueries.AppendRange | db/series.py:412-413 | the inner loop appends `range(lo, hi)` |
| SeriesQueries.FindGaps | db/series.py:405-413 | the pair loop computes the gaps of the sorted values |
| SeriesQueries.VolumesOf | db/series.py:424 | the distinct non-NULL volumes of the series |
| SeriesQueries.SeriesOrder | db/series.py:396-398 | the series names, each once, exactly those with a row |
| SeriesQueries.SeriesGapsWellFormed | db/series.py:404-440 | each entry of one series has its name, non-empty ascending gaps and their count |
| SeriesQueries.ReportEntriesWellFormed | db/series.py:400-442 | every report entry has non-empty ascending gaps, their count and a series that has rows |
| SeriesQueries.GroupBySeries | db/series.py:396-398 | the grouping gives the series in order of first appearance, each with its rows in query order |
| SeriesQueries.NotInOrderNoRows | db/series.py:396-398 | a series without a group has no rows |
| SeriesQueries.SeriesReport | db/series.py:403-440 | one series' chapter entry then volume entry, each only when it has gaps |
| SeriesQueries.GapsReport | db/series.py:383-442 | the loop over the groups gives the gap report |
| SeriesQueries.GapReport | db/series.py:383-442 | specification function of `get_gaps_report`; ReportEntriesWellFormed states its entries' shape and GapsReport computes it |
| SeriesQueries.CleanQuery | db/series.py:340 | every character outside `\w` and `\s` becomes a space, the rest are kept |
| SeriesQueries.SearchTermsAreWords | db/series.py:340-346 | every search word is a non-empty run of word characters, so no term carries a quote or operator |
| SeriesQueries.NoWordCharNoResults | db/series.py:329-343 | a query without a word character (blank included) gives no results |
| SeriesQueries.FallbackUsesRawQuery | db/series.py:356-369 | when the full-text search fails or finds nothing, the substring search runs on the raw query |
| SeriesQueries.SearchSeries | db/series.py:327-381 | specification function of `search_series`; NoWordCharNoResults and FallbackUsesRawQuery state its two outcomes |
| SeriesQueries.SortedStatuses | db/series.py:482-490 | the distinct non-NULL statuses, sorted |
| SeriesQueries.SystemTagsInjective | db/series.py:486 | no two system tags share a display spelling |
| SeriesQueries.SortedGenres | db/series.py:486 | the display spellings of the system tags, each once, sorted |
| SeriesQueries.SeriesMetadata | db/series.py:477-492 | sorted distinct statuses and sorted genres of the (refreshed) tag cache |
| LegacyTags.CombinedMapSpec | database.py:649-658 | a lower-case key is in the combined map iff some genre or tag lowers to it, and it shows the last such tag, or the last such genre when no tag does |
| LegacyTags.LastSpellingFound | database.py:653-656 | a last spelling lowering to a key exists iff some item lowers to it |
| LegacyTags.AssignAt | database.py:653-656 | after the assignment loop a key is present iff it was before or an item lowers to it, and holds the last such item |
| LegacyTags.DisplayLowersToKey | database.py:653-656 | every display spelling lowers to its own key |
| LegacyTags.TagsOverrideGenres | database.py:653-656 | a tag's key shows a tag spelling, never a genre spelling |
| LegacyTags.LegacyMatchIff | database.py:617-620 | a series matches iff every selected tag equals one of its genres or tags up to case |
| LegacyTags.LegacyCarriers | database.py:687-699 | a series carries a display name in the tally iff it matches and some unselected key of its combined map shows that name |
| LegacyTags.LegacyStatsReference | database.py:687-699 | a display name is tallied iff some matching series carries it, with the number of carriers and the first three covers and names |
| LegacyTags.SelectedNeverRelated | database.py:689 | no tallied name lowers to a selected tag |
| LegacyTags.LegacyNamesDistinct | database.py:688-691 | every tally entry is filed under its own name |
| LegacyTags.CaseVariantsCountedApart | database.py:651-656 | "Action" in one series and "action" in another are two separate entries, each counted once |
| LegacyTags.BuildCombined | database.py:651-656 | the loops build the combined map |
| LegacyTags.AssignAll | database.py:653-656 | one assignment loop gives the snoc fold of its items |
| LegacyTags.CountStep | database.py:688-693 | counting one more unselected key adds its display name, which was not yet counted |
| LegacyTags.CountRelated | database.py:687-699 | the aggregation loop adds the series to every unselected display name of its combined map |
| LegacyTags.TallyNothing | database.py:661 | a series that does not match leaves the tally unchanged |
| LegacyTags.LegacyStep | database.py:635-699 | one more row appends its entry iff it matches and tallies its counted names |
| LegacyTags.LegacyRow | database.py:635-699 | the body of the row loop gives that row's entry and tally |
| LegacyTags.LegacySeriesByTags | database.py:607-714 | the matching series in row order with their count, and the related list: the tally's entries, each once, sorted by count descending then name |
| Progress.BuildAssignments | db/progress.py:39-62 | the UPDATE assigns distinct columns, and its effect on any row is the promised update: page and read time set, seconds added, each optional column set only when given |
| Progress.AddIfGiven | db/progress.py:44-58 | one optional column is appended only when its argument is given, keeping the order of columns |
| Progress.AddAssignment | db/progress.py:41-58 | appending an assignment applies it after the earlier ones |
| Progress.ApplyAllSnoc | db/progress.py:61-62 | the UPDATE applies its assignments in turn |
| Progress.FixedColumns | db/progress.py:41-42 | the three fixed assignments set the page, the read time and add the seconds |
| Progress.StagesFollow | db/progress.py:44-58 | each optional column moves the partial update on by one when given, and all five give the full update |
| Progress.ColumnsFollowSlots | db/progress.py:41-58 | columns listed in increasing order are distinct |
| Progress.ProgressTable.UpdateReadingProgress | db/progress.py:28-75 | an existing row gets the update; otherwise a row is inserted with total pages 0 and not completed unless given, and the seconds read so far |
| Progress.VisitsAccumulate | db/progress.py:41-42 | two visits add up their seconds, the later page wins, and an absent total keeps the earlier one |
| Progress.ProgressTable.GetReadingProgress | db/progress.py:9-17 | the row of the user and comic, or None |
| Progress.ProgressTable.GetAllProgress | db/progress.py:19-26 | exactly the user's rows, keyed by comic |
| Progress.ProgressTable.ClearReadingProgress | db/progress.py:77-82 | every row of the user goes and no other |
| Progress.ProgressTable.DeleteReadingProgress | db/progress.py:84-92 | only the row of that user and comic goes |
| Progress.ProgressTable.GetUserStats | db/progress.py:94-130 | the count of the user's rows, of the completed ones, and the sums of pages and seconds, 0 when there are none |
| Progress.SumOfRemove | db/progress.py:110-120 | a sum is the value of any one row plus the sum of the others |
| Progress.SumOfAgree | db/progress.py:110-120 | a sum reads only the rows it sums |
| Progress.StatsStep | db/progress.py:98-120 | counting one more row adds one, one more if completed, and its page and seconds |
| Progress.CompletedAmongUser | db/progress.py:105-108 | the completed rows among the user's rows are the user's completed rows |
| Progress.CompletedAtMostTotal | db/progress.py:98-108 | completed comics never exceed the comics started |
| Progress.UpsertStats | db/progress.py:28-114 | upserting a comic adds one to the count iff it is new, and changes the pages read by the new page minus the old |
| Progress.ClearedStats | db/progress.py:77-120 | after clearing, the user's statistics are all 0 and every other user's are unchanged |
| Progress.Whitelisted | db/progress.py:145-150 | exactly the keywords that are allowed, with their values |
| Progress.PreferencesTable.GetUserPreferences | db/progress.py:133-141 | the user's row, or None |
| Progress.PreferencesTable.UpdateWith | db/progress.py:150-166 | false and nothing written iff no keyword is allowed; the CHECK error, with nothing written, iff the user has a row and an allowed keyword breaks a column's CHECK; otherwise the allowed keywords are merged into the user's row with a new time, if there is a row, and true is returned; every row keeps meeting the CHECKs |
| Progress.PreferencesTable.UpdateUserPreferences | db/progress.py:143-166 | the same update with the seventeen allowed fields, under the same CHECKs |
| Progress.MergedMeetsChecks | db/connection.py:107-128 | a row that meets the CHECKs still meets them after a merge iff the merged values do |
| Progress.CheckExamples | db/connection.py:111-127 | the theme "blue" and a flag for `nsfw_mode` are refused, the theme "light" is accepted, and `default_sort_by`, which has no CHECK, takes any text |
| Progress.BookmarkOrders | db/progress.py:176-182 | page order and newest-first order are strict orders |
| Progress.PagesStrictlyIncrease | db/progress.py:176 | one comic's bookmarks sorted by page have strictly increasing pages |
| Progress.BookmarksTable.AddBookmark | db/progress.py:189-203 | a bookmark is stored and true returned iff that page of that comic had none; a duplicate writes nothing |
| Progress.BookmarksTable.RemoveBookmark | db/progress.py:205-213 | only that bookmark goes |
| Progress.BookmarksTable.GetBookmarks | db/progress.py:169-187 | exactly the user's bookmarks (of the comic when given), each once, by increasing page for one comic and newest first otherwise |
| Progress.BookmarksTable.CollectBookmarks | db/progress.py:173-184 | exactly the rows the WHERE clause selects, each once |
| LegacyDatabase.LegacyIsCurrentRestricted | database.py:243-275 | the legacy update is the current update with no reader settings and no time read, where a total or a completion flag given alone is dropped; the legacy insert is the current insert with those defaults |
| LegacyDatabase.LoneTotalIgnored | database.py:255-268 | a total given without a completion flag leaves the stored total, where the current update writes it |
| LegacyDatabase.LegacyUpdateReadingProgress | database.py:243-278 | an existing row gets the page and read time, and the total and completion only when both are given; otherwise a row is inserted with total 0 and not completed unless given |
| LegacyDatabase.LegacyFieldsStillAllowed | database.py:293-294 | every legacy preference field is allowed by the current update, so the legacy writes are a subset |
| LegacyDatabase.EreaderOnlyCurrent | database.py:293-294 | `ereader` alone is written by the current update and refused by the legacy one |
| LegacyDatabase.LegacyUpdateUserPreferences | database.py:291-312 | false and nothing written iff no keyword is among the seven legacy fields; the CHECK error with nothing written iff the user has a row and a value breaks a CHECK; otherwise the allowed keywords are merged into the user's row with a new time |
| LegacyDatabase.LegacyChecksAgree | database.py:62-76 | the legacy schema's CHECK on each legacy field admits the same values as the current schema's |
| AiCache.KeyOrder | ai/cache.py:58 | ordering fields by key, as `sorted(data.items())` does, is a strict order |
| AiCache.NormalTextIsNormal | ai/cache.py:62 | a stripped, lower-cased string has no surrounding space and no upper-case letter |
| AiCache.NormalizeIsNormal | ai/cache.py:46-66 | every string of the normalised value is stripped and lower-case, and every object's keys are in order, at every depth |
| AiCache.NormalIsFixed | ai/cache.py:46-66 | a value already in that form is its own normalisation |
| AiCache.NormalizeIdempotent | ai/cache.py:46-66 | normalising twice gives what normalising once gives |
| AiCache.RequestKeyIsNormal | ai/cache.py:28-40 | the dictionary hashed is in normal form with its three keys in sorted order, so `sort_keys` leaves it as written |
| AiCache.HashOfNormalized | ai/cache.py:17-43 | requests differing only in the spacing or case of strings or in key order hash alike |
| AiCache.Normalize | ai/cache.py:46-66 | specification function of `_normalize_for_hash`; NormalizeIsNormal and NormalizeIdempotent state what it yields |
| AiCache.HashRequest | ai/cache.py:17-43 | specification function of `hash_request`, the hash of the dumped normalised key; HashOfNormalized and CustomRequestNormalized are its partners |
| AiCache.CustomRequestNormalized | ai/cache.py:36 | two custom requests give the same key iff they agree once stripped and lower-cased |
| AiCache.FirstKeyed | ai/cache.py:84-92 | None iff no row has the user and hash; otherwise the earliest such row |
| AiCache.Lookup | ai/cache.py:94-117 | None iff no row has the key or the first has expired; otherwise the recommendations of an unexpired row of the key |
| AiCache.WithoutKey | ai/cache.py:105-108 | no row of the key is left, every other row stays, and nothing is added |
| AiCache.WithoutUser | ai/cache.py:185-188 | no row of the user is left, every other row stays, and nothing is added |
| AiCache.WithoutOutOfDate | ai/cache.py:208-211 | no row whose expiry has passed is left, every other row (a NULL expiry included) stays, and nothing is added |
| AiCache.CacheTable.constructor | db/connection.py:393-402 | the table starts empty |
| AiCache.CacheTable.GetCachedRecommendations | ai/cache.py:69-125 | the lookup's answer; an expired first row deletes every row of the key, and otherwise nothing changes |
| AiCache.CacheTable.CacheRecommendations | ai/cache.py:128-171 | true, with the new row expiring `ttl_hours` later appended after every existing row |
| AiCache.CacheTable.CacheRecommendationsReplacing | ai/cache.py:153-161 | the INSERT OR REPLACE the comment describes: the key's earlier rows are dropped and the new row added |
| AiCache.CacheTable.ClearUserCache | ai/cache.py:174-197 | the user's rows go, and the count is the number of rows deleted |
| AiCache.CacheTable.ClearExpiredCache | ai/cache.py:200-221 | the rows whose expiry has passed go, and the count is the number of rows deleted |
| AiCache.ClearedUserMisses | ai/cache.py:174-192 | after clearing a user's cache every lookup of that user misses |
| AiCache.CachedIsFound | ai/cache.py:128-161 | a result cached for a new key is returned by a lookup before it expires |
| AiCache.RecacheReturnsStale | ai/cache.py:154-161 | caching a second result for the same key still returns the first |
| AiCache.ExpiryDropsFresh | ai/cache.py:98-110 | once the first row of the key expires the lookup misses and deletes the newer row too |
| AiCache.LatestWins | ai/cache.py:154-161 | with the key replaced, a lookup before expiry returns the latest result |
| AiJobs.NewJob | ai/jobs.py:23-30 | a new job is pending with "Initializing...", no result and no error |
| AiJobs.Young | ai/jobs.py:56-61 | exactly the jobs no older than the maximum age are kept, unchanged |
| AiJobs.JobStore.constructor | ai/jobs.py:18 | the store starts empty |
| AiJobs.JobStore.CreateJob | ai/jobs.py:20-31 | the given id is returned and now holds a new job; the other jobs are unchanged |
| AiJobs.JobStore.GetJob | ai/jobs.py:33-35 | None iff no job has the id; otherwise that job |
| AiJobs.JobStore.UpdateJob | ai/jobs.py:37-54 | an unknown id changes nothing; otherwise only that job changes: an error fails it, else a result completes it, else a given status stands, and each truthy field is written |
| AiJobs.JobStore.CleanupOldJobs | ai/jobs.py:56-61 | the store afterwards holds exactly the jobs no older than the maximum age |
| AiJobs.EmptyUpdateKeeps | ai/jobs.py:43-52 | an update with no truthy argument leaves the job as it was |
| AiJobs.ErrorWins | ai/jobs.py:47-52 | a non-empty error fails the job and is recorded, whatever status or result comes with it |
| AiJobs.CleanupIdempotent | ai/jobs.py:56-61 | a second cleanup at the same moment removes nothing more |
| Prompts.FieldLine | ai/prompts.py:52-65 | a field line is present iff the field is truthy |
| Prompts.AuthorLine | ai/prompts.py:49-50 | the author line is present iff `author` or `authors` is truthy |
| Prompts.SeriesBlock | ai/prompts.py:44-67 | a block is one to seven lines, headed by the label and the title |
| Prompts.SeriesBlockFacts | ai/prompts.py:47-50 | an untitled series is headed "Unknown", a missing author falls back to `authors`, and a series with no truthy field is its heading alone |
| Prompts.CategoryLines | ai/prompts.py:116-125 | a category gives its heading, its instruction ("keep" by default), and a details line iff the details are non-empty |
| Prompts.RequestText | ai/prompts.py:128-138 | the stripped custom request when it is not blank, the default request otherwise |
| Prompts.BuildRecipePrompt | ai/prompts.py:70-140 | the prompt is the base section, the attribute section and the request section joined with newlines |
| Prompts.AppendBase | ai/prompts.py:95-101 | one series gives its "Base Series" block; otherwise the count line and the numbered blocks |
| Prompts.AppendNumbered | ai/prompts.py:99-101 | each series adds an empty line and its block labelled "Series i", in order |
| Prompts.AppendCategories | ai/prompts.py:116-125 | each category adds its lines, in order |
| Prompts.AllCategoriesInOrder | ai/prompts.py:106-125 | the attribute section's headings are the categories' headings in order, whatever the attributes hold |
| Prompts.SevenHeadings | ai/prompts.py:106-125 | the attribute section has exactly seven category headings |
| Prompts.PromptFrame | ai/prompts.py:93-140 | the prompt starts with "## Base Series" and ends with the request text |
| Prompts.SingleBaseLines | ai/prompts.py:95-96 | one series is written as the "Base Series" block |
| Prompts.ManyBaseLines | ai/prompts.py:97-101 | several series start with the count line, an empty line and the heading of "Series 1" |
| AiMatching.ReplacementOf | routes/ai.py:92-103 | the replacements turn the multiplication sign, both dashes, the curly quotes and the full-width colon into ASCII and keep every other character |
| AiMatching.SubstitutedIsPlain | routes/ai.py:102-103 | after the replacements no substituted character is left and ASCII text is unchanged |
| AiMatching.NormalizeUnicode | routes/ai.py:89-104 | the loop applies the replacements in order to every character, then NFKC |
| AiMatching.TailGroupOf | routes/ai.py:115 | `\s*\((.+?)\)\s*$` has exactly one second group on any text of that shape |
| AiMatching.FirstSplitIsFirst | routes/ai.py:115 | the lazy first group ends at the first place where the rest of the pattern matches, and there is no match iff there is no such place |
| AiMatching.ParenGroupsMatch | routes/ai.py:115-116 | the title matches iff the first group can end somewhere |
| AiMatching.StripSpaces | routes/ai.py:117 | spaces after the first group disappear once it is stripped |
| AiMatching.ParenTitle | routes/ai.py:115-118 | a title "A (B)" with no "(" in A matches, with A as the stripped first group and B as the second |
| AiMatching.BeforeColon | routes/ai.py:120-121 | the part before the first ":" is a colon-free prefix, shorter than the title iff the title holds a ":" |
| AiMatching.Candidates | routes/ai.py:109-121 | the candidate names start with the title itself |
| AiMatching.ExtractSearchNames | routes/ai.py:107-129 | the title, its normalised form when different, the two stripped parenthesis groups and the stripped text before ":", de-duplicated |
| AiMatching.Deduplicate | routes/ai.py:123-129 | the loop with the `seen` set keeps exactly the first occurrence of each name, in order |
| AiMatching.DedupeFacts | routes/ai.py:123-129 | de-duplication keeps every name once, adds none, and keeps the order of first occurrences |
| AiMatching.DedupeHead | routes/ai.py:109 | the first name searched is the first candidate |
| AiMatching.SearchNamesFacts | routes/ai.py:107-129 | the search names start with the title, are distinct and are exactly the candidates |
| AiMatching.Enrich | routes/ai.py:132-146 | a series with a cover is returned as is; otherwise only the cover may change, to the first comic of the series |
| AiMatching.Put | routes/ai.py:183-184 | storing a row under its id keeps the ids distinct, adds its id, holds the row, and drops only the older row with that id |
| AiMatching.PutAll | routes/ai.py:183-192 | storing rows one by one keeps the ids distinct and adds exactly their ids |
| AiMatching.GatheredIds | routes/ai.py:162-196 | the gathered matches hold one entry per distinct series id hit by any name through either query |
| AiMatching.FirstExact | routes/ai.py:162-171 | the exact hit of the first name that has one, and none iff no name has one |
| AiMatching.Classify | routes/ai.py:196-215 | with several matches every one is listed, in order |
| AiMatching.PutRows | routes/ai.py:183-184 | the loop stores each row under its id, in order |
| AiMatching.FuzzySearch | routes/ai.py:173-192 | the title hits, then the synonym hits, are stored under their ids |
| AiMatching.SearchLibrary | routes/ai.py:159-217 | the first exact name hit is returned at once as in the library; otherwise the gathered fuzzy hits decide |
| AiMatching.MatchRecommendation | routes/ai.py:149-217 | an untitled recommendation is unchanged; otherwise its search names are looked up as above |
| AiMatching.UntitledUnchanged | routes/ai.py:155-157 | a recommendation with no title comes back unchanged |
| AiMatching.ExactTitleWins | routes/ai.py:159-171 | a title that is itself a series name puts the recommendation in the library as that series |
| AiMatching.NoExactHit | routes/ai.py:159-171 | when no candidate is a series name, the fuzzy search over all names decides |
| AiMatching.FuzzyClassification | routes/ai.py:196-215 | without an exact hit: not in the library iff no series was hit, in the library iff exactly one, "multiple" iff more, and then exactly the hit series are offered |
| AiMatching.MultipleOffersAll | routes/ai.py:204-213 | the candidates offered are exactly the gathered series |
| SeriesRoutes.AddLinks | routes/series.py:62-67 | comic i links back to comic i-1 when i > 0 and on to comic i+1 when i < n-1, and is otherwise unchanged |
| SeriesRoutes.LinksChain | routes/series.py:62-67 | only the first comic lacks a previous link, only the last lacks a next link, and next and previous links point at each other's neighbours |
| SeriesRoutes.ComputeStats | routes/series.py:70-89 | the loop's counts are the pages with null as 0, the comics completed, the comics started and not completed, and the pages read |
| SeriesRoutes.StatsAppend | routes/series.py:70-82 | the statistics of two runs of comics add up field by field |
| SeriesRoutes.CountsDisjoint | routes/series.py:79-82 | no comic counts as both completed and in progress |
| SeriesRoutes.UnknownPagesAddNothing | routes/series.py:70 | a comic with unknown pages adds nothing to the total pages |
| SeriesRoutes.UnreadSeries | routes/series.py:75-82 | without progress rows nothing is read, completed or in progress |
| SeriesRoutes.FinishedSeries | routes/series.py:75-82 | when every comic is completed all count as completed and none as in progress |
| SeriesRoutes.FirstFrom | routes/series.py:95-107 | the first index passing the test, and none iff no comic passes it |
| SeriesRoutes.FindFirst | routes/series.py:95-99 | the loop with `break` stops at the first comic passing the test |
| SeriesRoutes.ChooseResume | routes/series.py:93-117 | the first unread or started comic, failing that the first unread one, with its page or 0 |
| SeriesRoutes.FallbackNeverFinds | routes/series.py:101-107 | the second loop never finds a comic the first one missed, so the choice is the first loop's |
| SeriesRoutes.ResumeIsFirst | routes/series.py:93-117 | a comic is offered iff one is unread or started and not completed; it is the first such comic and its page is where the user stopped, or 0 |
| SeriesRoutes.NothingToResume | routes/series.py:95-109 | with every comic completed nothing is offered |
| SeriesRoutes.GetSeriesDetail | routes/series.py:52-119 | 404 exactly when the series is missing; otherwise the links, the statistics and the comic to continue with |
| SeriesRoutes.Ratings.constructor | db/connection.py:334-344 | the ratings table starts empty and meets its CHECK constraint |
| SeriesRoutes.Ratings.UserRating | db/series.py:468-475 | the user's rating of the series, between 1 and 5, or none iff there is no row |
| SeriesRoutes.Ratings.RateSeries | routes/series.py:25-32 | with `add_rating` taken from db/series.py:444 (see Left out): a rating outside 1..5 is refused with 400 and nothing is written; otherwise the user's rating of the series is inserted or replaced and nothing else changes |
| Discovery.Thumbnailed | routes/discovery.py:62-64 | exactly the comics with a thumbnail |
| Discovery.RecentComics | routes/discovery.py:61-67 | exactly min(100, number of thumbnailed comics) comics, all with a thumbnail and from the table, newest first |
| Discovery.RecentComicsAreNewest | routes/discovery.py:61-67 | with at most 100 thumbnailed comics every one of them is listed; otherwise no thumbnailed comic left out is newer than any comic kept |
| Discovery.GroupBySeries | routes/discovery.py:71-75 | the loop files each comic under its series, or "Unknown Series", in order |
| Discovery.GroupsOf | routes/discovery.py:72-75 | the dictionary's keys are exactly the keys seen |
| Discovery.GroupsAreMembers | routes/discovery.py:72-75 | each group is exactly the comics of its series, in query order, and unseen keys have none |
| Discovery.KeysComplete | routes/discovery.py:73-75 | every comic's series has a group |
| Discovery.KeysHaveMembers | routes/discovery.py:78-80 | no group is empty |
| Discovery.KeysDistinct | routes/discovery.py:72-79 | each series appears once |
| Discovery.MaxMtime | routes/discovery.py:87 | the latest time is the time of one of the comics and no comic is later |
| Discovery.BuildGroups | routes/discovery.py:77-89 | the loop builds one entry per non-empty group, in key order |
| Discovery.SummariesAreGroups | routes/discovery.py:77-89 | one entry per series, in first-seen order, each built from exactly that series' comics |
| Discovery.SummaryFacts | routes/discovery.py:80-89 | an entry holds its group's size (at least 1), first comic, latest time, and its first titles, at most five |
| Discovery.MembersSorted | routes/discovery.py:65-75 | a group keeps the newest-first order of the query |
| Discovery.FirstIsLatest | routes/discovery.py:84-87 | the first comic of a group is one of its newest |
| Discovery.CountsCover | routes/discovery.py:72-85 | the group counts add up to the number of comics |
| Discovery.GetNewAdditions | routes/discovery.py:47-93 | the groups of the recent comics, sorted latest first and cut to 30 |
| Discovery.NewAdditionsFacts | routes/discovery.py:91-93 | at most 30 groups, latest first, each a group of the recent comics |
| Discovery.RecentOf | routes/discovery.py:110-130 | with fewer than three reads in the week at most the three latest reads are used, otherwise the week's reads |
| Discovery.IdsOf | routes/discovery.py:137 | the series ids of the recent reads, in order |
| Discovery.TagRows | routes/discovery.py:138-143 | exactly the series rows whose id was read recently |
| Discovery.CollectUserTags | routes/discovery.py:145-159 | the loop collects the genres and tags of every series read |
| Discovery.UserTagsAreReadTags | routes/discovery.py:145-159 | a tag is the user's iff some series read carries it |
| Discovery.Unread | routes/discovery.py:166-177 | exactly the series not read recently that have genres or tags |
| Discovery.ScoredOf | routes/discovery.py:180-202 | exactly the candidate series sharing a tag with the user, each with the shared tags |
| Discovery.ScoreRows | routes/discovery.py:180-202 | the loop scores each candidate by its shared tags and drops those with none |
| Discovery.TopScored | routes/discovery.py:205-207 | at most 30 entries |
| Discovery.TopScoredFacts | routes/discovery.py:205-207 | highest score first; no entry left out scores higher than one kept; with at most 30 entries none is left out |
| Discovery.BuildSuggestions | routes/discovery.py:206-220 | one response entry per kept entry, in order |
| Discovery.GetSuggestions | routes/discovery.py:96-223 | the suggestions for the recent reads: empty without reads or without tags, else the best-scored unread series |
| Discovery.NoReadsNoSuggestions | routes/discovery.py:132-134 | a user who read nothing gets no suggestions |
| Discovery.NoTagsNoSuggestions | routes/discovery.py:161-163 | when no series read has a tag there are no suggestions |
| Discovery.SuggestionFacts | routes/discovery.py:165-220 | a suggested series was not read recently, and its score is the number of tags it shares with what was read, at least one |
| Discovery.SuggestionsRanked | routes/discovery.py:204-220 | at most 30 suggestions, by score from highest |
| Nsfw.KeptItems | db/nsfw.py:23-30 | every item kept from a JSON list is non-empty and stripped |
| Nsfw.KeepItems | db/nsfw.py:25-30 | the loop keeps exactly the stripped, non-blank `str` of each item, in order |
| Nsfw.ParseList | db/nsfw.py:18-34 | a missing setting gives the default; a JSON list gives its kept items even when none are kept; any other text gives its non-blank comma pieces, or the default when there are none |
| Nsfw.ParsedItemsClean | db/nsfw.py:18-34 | a parsed list is the default or holds only non-empty stripped items |
| Nsfw.EmptyJsonListStaysEmpty | db/nsfw.py:23-30 | a stored `[]` gives the empty list, not the default |
| Nsfw.BlankTextGivesDefault | db/nsfw.py:33-34 | text with no non-blank comma piece gives the default |
| Nsfw.SplitJoin | db/nsfw.py:33 | splitting at commas undoes joining comma-free pieces with commas |
| Nsfw.CommaListRoundTrip | db/nsfw.py:33-34 | a non-empty list of clean comma-free items, stored joined with commas as non-JSON text, reads back as itself |
| Nsfw.JsonListRoundTrip | db/nsfw.py:22-30 | a list of clean strings stored as a JSON list reads back as itself |
| Nsfw.GetNsfwConfig | db/nsfw.py:13-40 | the three lists are parsed with defaults empty, empty and the built-in tag patterns |
| Nsfw.UnsetConfig | db/nsfw.py:36-40 | with no settings stored, only the default tag patterns are configured |
| Nsfw.PlainPatternIsEquality | db/nsfw.py:53 | a pattern without `*`, `?` or `[` matches exactly the equal tag |
| Nsfw.PrefixPattern | db/nsfw.py:53 | `w*` matches exactly the tags that start with `w` |
| Nsfw.SuffixPattern | db/nsfw.py:53 | `*w` matches exactly the tags that end with `w` |
| Nsfw.InfixPattern | db/nsfw.py:53 | `*w*` matches exactly the tags that contain `w` |
| Nsfw.StarMatchesAll | db/nsfw.py:53 | `*` matches every tag |
| Nsfw.InfixExample | db/nsfw.py:43-55 | `*breast*` matches "large breasts" |
| Nsfw.PrefixExample | db/nsfw.py:43-55 | `sexual*` matches "sexuality" |
| Nsfw.ExactExample | db/nsfw.py:43-55 | `ecchi` matches "ecchi" and not "romance" |
| Nsfw.NormalizedTags | db/nsfw.py:46-47 | exactly the non-empty normal forms of the tags |
| Nsfw.NormalizedPatterns | db/nsfw.py:50 | exactly the stripped, lower-cased non-blank patterns |
| Nsfw.MatchesTagPatternIff | db/nsfw.py:43-55 | false when either list is empty or no tag normalises to a non-empty string; otherwise true iff some normalised tag glob-matches some stripped, lower-cased pattern, in both directions |
| Nsfw.MatchesTagPattern | db/nsfw.py:43-55 | specification predicate of `matches_nsfw_tag_pattern`; MatchesTagPatternIff, MatchIgnoresSpellingOfTags and MatchesMonotone state it |
| Nsfw.FnMatch | db/nsfw.py:53 | specification predicate of `fnmatch` on a lower-cased tag; PlainPatternIsEquality, PrefixPattern, SuffixPattern, InfixPattern and StarMatchesAll state it |
| Nsfw.Translate | db/nsfw.py:53 | `fnmatch.translate`: each token takes at least one pattern character, and only the empty pattern gives no tokens; TranslatePlain and TranslateStar give the tokens of plain text and of `*` |
| Nsfw.MatchIgnoresSpellingOfTags | db/nsfw.py:46 | normalising the tags first changes no answer |
| Nsfw.MatchesMonotone | db/nsfw.py:50-54 | adding patterns never turns a match into a miss |
| Nsfw.CascadeEnds | db/nsfw.py:71-75 | a missing row or a row without id is never NSFW; a truthy `is_adult` is NSFW under every configuration |
| Nsfw.DetermineSeriesNsfw | db/nsfw.py:58-99 | specification predicate of `determine_series_nsfw`; CascadeEnds, DetermineMonotone, EmptyConfigOnlyAdult and FlagFollowsCascade state it |
| Nsfw.DetermineMonotone | db/nsfw.py:77-99 | widening any configured list never unflags a series |
| Nsfw.EmptyConfigOnlyAdult | db/nsfw.py:74-99 | with every list empty a series with an id is NSFW iff `is_adult` is truthy |
| Nsfw.CategoryExample | db/nsfw.py:77-83 | the category rule is a case-insensitive substring test: "hentai" hits "Hentai & Adults" |
| Nsfw.SubcategoryExample | db/nsfw.py:85-91 | the subcategory rule is an equality: "hentai" does not hit "Hentai & Adults" |
| Nsfw.OverrideWins | db/nsfw.py:116-118 | a non-null override is the stored flag under every configuration, in either direction |
| Nsfw.FlagFollowsCascade | db/nsfw.py:119-120 | without an override the stored flag is 1 iff the cascade says NSFW, else 0 |
| Nsfw.WrittenIsLastWrite | db/nsfw.py:126 | the batch UPDATE keeps the set of series and gives each the flag of its last pair, or keeps its flag |
| Nsfw.WrittenTwice | db/nsfw.py:126 | running the same batch twice leaves what running it once leaves |
| Nsfw.CollectUpdates | db/nsfw.py:113-123 | one pair per series and no series twice, each with the flag its override or the cascade gives it; `flagged` counts the non-zero flags |
| Nsfw.BatchGivesFlags | db/nsfw.py:113-127 | a batch covering every series once gives each series its computed flag, whatever the column held |
| Nsfw.NsfwColumns.ApplyUpdates | db/nsfw.py:125-127 | the column after the batch is the batch applied pair by pair; no other column changes |
| Nsfw.NsfwColumns.RecomputeNsfwFlags | db/nsfw.py:102-132 | every series' `is_nsfw` becomes its computed flag, never reading the stored flag, so a second run changes nothing |
| Lists.Touch | db/lists.py:176-180 | touching a list changes only its `updated_at`, and only when the list exists |
| Lists.TouchKeepsNames | db/connection.py:376 | touching keeps UNIQUE(user_id, name) |
| Lists.Edited | db/lists.py:111-129 | the row after `update_list` takes each given field, keeps the others and the owner, and sets `updated_at` |
| Lists.WithoutList | db/lists.py:145 | exactly the items of other lists remain, unchanged |
| Lists.WithoutPair | db/lists.py:197-200 | exactly the items other than (list, series) remain, unchanged |
| Lists.MaxExists | db/lists.py:165-168 | `MAX(position)` exists over a non-empty list |
| Lists.NextPosition | db/lists.py:164-169 | the default position is above every position in the list, 0 for an empty list, and otherwise one more than a position in use |
| Lists.NextPositionIs | db/lists.py:169 | the default position is exactly `MAX(position) + 1` |
| Lists.LastIndex | db/lists.py:282 | the index of the last occurrence of an id in the order, or -1 iff the id is absent |
| Lists.ReorderedAt | db/lists.py:282-286 | after the UPDATE loop an item of the list named in the order sits at its last index in the order; every other item is unchanged |
| Lists.ReorderFollowsOrder | db/lists.py:271-286 | with distinct ids, the `i`-th id gets position `i`, so the items come back in the order given |
| Lists.ReorderKeepsPairs | db/lists.py:282-286 | reordering changes positions only, so UNIQUE(list_id, series_id) still holds |
| Lists.ReaderOrders | db/lists.py:214-268 | the three ORDER BY keys (updated_at descending, name, position) are strict orders |
| Lists.Window | db/lists.py:77-94 | `LIMIT`/`OFFSET` as SQLite reads them: a negative limit is no limit, a negative offset none; the window is the run of the list from the offset |
| Lists.WindowSorted | db/lists.py:77-94 | a window of a sorted list is sorted |
| Lists.NamesStrictlyIncrease | db/connection.py:376 | one owner's lists sorted by name have strictly increasing names |
| Lists.ListsTable.constructor | db/connection.py:367-391 | the empty tables satisfy both UNIQUE constraints |
| Lists.ListsTable.CreateList | db/lists.py:7-23 | None iff the user already has a list of that name; otherwise a fresh id holding the given row, the constraints kept |
| Lists.ListsTable.GetList | db/lists.py:26-55 | Some iff the list exists and is public or the caller's, and then it is that row |
| Lists.ListsTable.GetUserLists | db/lists.py:58-74 | exactly the caller's and the public lists, each once, most recently updated first |
| Lists.ListsTable.GetPublicLists | db/lists.py:77-94 | the window of all public lists, each once and most recently updated first |
| Lists.ListsTable.UpdateList | db/lists.py:97-135 | true iff a whitelisted field is given, the caller owns the list and a rename does not collide; the UNIQUE error iff a whitelisted field is given, the caller owns the list and the rename collides; nothing is written unless true |
| Lists.ListsTable.DeleteList | db/lists.py:138-153 | the list's items go whoever calls; the list goes, and true is returned, iff the caller owns it |
| Lists.ListsTable.AddSeriesToList | db/lists.py:156-187 | false with nothing written iff the series is already in the list; otherwise one new item at the given or default position, and the list touched |
| Lists.ListsTable.MaxPositionPlusOne | db/lists.py:164-169 | computes the default position |
| Lists.ListsTable.RemoveSeriesFromList | db/lists.py:190-211 | true iff the series was in the list; the item goes and the list is touched either way |
| Lists.ListsTable.GetSeriesLists | db/lists.py:214-235 | exactly the caller's lists holding the series, each once, by strictly increasing name |
| Lists.ListsTable.GetListItems | db/lists.py:238-268 | exactly the list's items whose series exists, joined with that series, each once, by position |
| Lists.ListsTable.ReorderListItems | db/lists.py:271-299 | false with nothing written iff the order is empty; otherwise the UPDATE loop's result and the list touched |
| ListRoutes.PyBound | routes/lists.py:60 | a Python slice bound lies within the list and is the index itself when in range |
| ListRoutes.PySlice | routes/lists.py:60 | `xs[a:b]` is no longer than `xs` |
| ListRoutes.PageOfNonNegative | routes/lists.py:58-77 | with a non-negative offset and limit the page is the `limit` lists from `offset` on, and `has_more` holds iff `offset + limit < total` |
| ListRoutes.PagesConcatenate | routes/lists.py:60 | two consecutive pages together are the double page: nothing repeated, nothing skipped |
| ListRoutes.NegativeOffsetPage | routes/lists.py:60-77 | a negative offset counts from the end and `has_more` can then be true on the last lists |
| ListRoutes.Authorize | routes/lists.py:140-146 | no error iff the caller owns the list; 404 iff the caller cannot see it; otherwise 403 |
| ListRoutes.CountItems | routes/lists.py:62-70 | each list of the page gets the number of its items |
| ListRoutes.GetLists | routes/lists.py:49-78 | the page is `all[offset:offset + limit]` of the caller's and public lists newest first, with item counts, `total` the number of all, and `has_more` iff `offset + len(items) < total` |
| ListRoutes.CreateListRoute | routes/lists.py:81-103 | 400 iff the caller already has a list of that name; otherwise the new id and row |
| ListRoutes.GetListDetails | routes/lists.py:106-129 | 404 iff the caller cannot see the list; otherwise the list and its items by position |
| ListRoutes.UpdateListRoute | routes/lists.py:132-162 | succeeds iff the caller owns the list, some field is given and a rename does not collide; only given fields change; 404/403 for other callers; 400 iff the owner gives no field; 500 iff the owner gives a field and the rename collides |
| ListRoutes.DeleteListRoute | routes/lists.py:165-185 | succeeds iff the caller owns the list; otherwise 404/403 and no item is deleted |
| ListRoutes.AddItemRoute | routes/lists.py:188-221 | succeeds iff the caller owns the list, the series exists and is not in the list yet; then exactly one item is added under a fresh id, at the given position or after the list's last, and only that list's `updated_at` changes; otherwise nothing changes |
| ListRoutes.RemoveItemRoute | routes/lists.py:224-245 | succeeds iff the caller owns the list and the series was in it; a non-owner changes nothing |
| ListRoutes.ReorderRoute | routes/lists.py:248-269 | succeeds iff the caller owns the list and the order is non-empty; then the positions follow the order |
| ListRoutes.MembersArePairs | db/connection.py:389 | a series is a member of the list iff an item pairs them |
| ListRoutes.AddedMember | db/lists.py:171-174 | inserting an item adds its series to the list's members |
| ListRoutes.NewMembersStep | routes/lists.py:298-312 | one more id adds its series to the new members iff it exists and was not a member |
| ListRoutes.BulkStep | routes/lists.py:298-312 | one loop step counts the id as added exactly when it becomes a new member |
| ListRoutes.BulkAddOne | routes/lists.py:298-309 | one id: an existing series not yet in the list is added as one new item after the list's last and the list is touched; otherwise nothing changes |
| ListRoutes.BulkFrameStep | routes/lists.py:298-309 | one more added item keeps every earlier item, files the new one in the list after all its earlier items, and leaves the list touched |
| ListRoutes.BulkAddLoop | routes/lists.py:295-312 | `added + skipped` is the number of ids; `added` is the number of distinct existing series not already in the list; exactly those become members; every earlier item is kept, every new item is in this list, added now after its earlier items, and only this list's row is touched, and only if something was added |
| ListRoutes.BulkAddSeries | routes/lists.py:272-320 | 404/403 for a list the caller does not own, 400 for no ids, with nothing changed; otherwise the counts and the new state of the loop, with other lists and their items unchanged |
| ListRoutes.BulkCountsBound | routes/lists.py:295-312 | at most one addition per id, and none when no id names an existing series |
| Libraries.ClearDefaults | db/libraries.py:41-42 | every library stays, with its name and path, and none is the default afterwards |
| Libraries.Edited | db/libraries.py:56-74 | the row after `update_library` takes each given field and keeps the others |
| Libraries.ClearDefaultsKeeps | db/libraries.py:41-42 | clearing the defaults keeps UNIQUE(name) and UNIQUE(path) and leaves no default |
| Libraries.LibraryOrder | db/libraries.py:8-9 | `ORDER BY is_default DESC, name ASC` is a strict order |
| Libraries.LibraryOrderTotal | db/libraries.py:8-9 | with unique names, of two different libraries one sorts before the other, so the order is fully determined |
| Libraries.LibrariesTable.constructor | db/connection.py:437-443 | the empty table satisfies both UNIQUE constraints and has no default |
| Libraries.LibrariesTable.GetLibraries | db/libraries.py:5-12 | every library exactly once, the default first, then by strictly increasing name |
| Libraries.LibrariesTable.GetLibrary | db/libraries.py:15-23 | Some iff a library has the id, and then that row |
| Libraries.LibrariesTable.GetDefaultLibrary | db/libraries.py:26-33 | None iff no library is the default; otherwise the one default library |
| Libraries.LibrariesTable.CreateLibrary | db/libraries.py:36-51 | the UNIQUE error with nothing written iff the name or path is taken; otherwise a fresh id, a new default first clearing every other default, so at most one default remains |
| Libraries.LibrariesTable.UpdateLibrary | db/libraries.py:54-78 | false with nothing written when no whitelisted field is given; a truthy `is_default` clears the other defaults first; the UNIQUE error, with nothing written, iff a row has the id, a field is given and the edited name or path is taken by another library; true iff a row has the id, and then only the given fields change |
| Libraries.LibrariesTable.DeleteLibrary | db/libraries.py:81-91 | true iff a row had the id; exactly that row goes |
| Libraries.LibrariesTable.GetLibraryComicsCount | db/libraries.py:94-102 | the number of comics whose `library_id` is the id, at most the number of comics |
| Libraries.CreatedDefaultIsOnly | db/libraries.py:41-49 | after creating a default library it is the only default |
| Libraries.UpdateMissingClearsDefault | db/libraries.py:65-78 | `update_library(id, is_default=True)` on an id no row has still clears the existing default while returning false |
| Annotations.Edited | db/annotations.py:61-72 | the row after `update_annotation` takes each given whitelisted field and keeps the owner, comic, page and creation time |
| Annotations.TextEditKeepsPosition | db/connection.py:362 | an edit that gives neither `x` nor `y` never collides with UNIQUE(user, comic, page, x, y) |
| Annotations.PageNarrows | db/annotations.py:9-22 | with a page the reader selects exactly the page's annotations among those it selects without one |
| Annotations.UnplacedNeverClash | db/connection.py:362 | an annotation with a NULL coordinate never collides, since NULLs are distinct in a UNIQUE constraint |
| Annotations.AnnotationsTable.constructor | db/connection.py:348-364 | the empty table satisfies the UNIQUE constraint |
| Annotations.AnnotationsTable.GetAnnotations | db/annotations.py:5-25 | exactly the user's annotations on the comic, on the given page when one is given, each once, newest first |
| Annotations.AnnotationsTable.AddAnnotation | db/annotations.py:28-43 | the UNIQUE error with nothing written iff the user has an annotation at that page and position; otherwise a fresh id holding the row |
| Annotations.AnnotationsTable.DeleteAnnotation | db/annotations.py:46-56 | true iff the annotation exists and is the user's; exactly then it goes |
| Annotations.AnnotationsTable.UpdateAnnotation | db/annotations.py:59-78 | true iff a whitelisted field is given, the annotation is the user's and its new position is free; then only the given fields change; the UNIQUE error iff a whitelisted field is given, the annotation is the user's and its new position is taken; otherwise nothing is written |
| Settings.NatTextValue | db/settings.py:50 | a non-negative number written in decimal reads back as itself |
| Settings.PyInt | db/settings.py:50-55 | `int(value)` yields a number only for text that is not blank once stripped; otherwise the reader falls back to its default |
| Settings.PyIntOfText | db/settings.py:50-55 | `int(str(i)) == i` for every integer, so a setting stored as decimal text reads as its number |
| Settings.PyIntOfNegative | db/settings.py:50-55 | `int(str(i)) == i` for a negative integer |
| Settings.ReadInt | db/settings.py:50-55 | the reading fails, carrying the text, iff `int` rejects the text; otherwise it is `int`'s value |
| Settings.EmptyTableDefaults | db/settings.py:49-56 | with no row stored the settings are quality 70, ratio 9:14, width 225, height 350, format webp and no approval |
| Settings.StoredQualityWins | db/settings.py:50 | a stored `thumb_quality` replaces the default and changes no other field |
| Settings.BadQualityRaises | db/settings.py:50 | a `thumb_quality` that is not an integer makes the reader fail with that text |
| Settings.SettingsTable.constructor | db/connection.py:467-473 | the table starts empty |
| Settings.SettingsTable.GetSetting | db/settings.py:6-14 | None iff the key is missing; otherwise its value |
| Settings.SettingsTable.SetSetting | db/settings.py:17-30 | INSERT OR REPLACE: the key now holds the value and every other key keeps its value, so a later `get_setting` returns it |
| Settings.SettingsTable.GetAllSettings | db/settings.py:33-38 | exactly the stored keys with their values |
| Settings.SettingsTable.GetThumbnailSettings | db/settings.py:41-56 | the typed settings of the stored rows, missing keys taking their defaults |

## Left out

- Integers are unbounded and strings are sequences of characters. Whitespace is the full set `str.isspace()` accepts (the ASCII controls `\t`-`\r` and `\x1c`-`\x1f`, the space, and the Unicode spaces and separators), as Python's `split()`, `strip()` and `\s` use. Case mapping and word characters are ASCII only: Unicode case folding, Unicode letters in `\w` and Unicode digits are not modelled.
- `get_file_size_str` (scanner/utils.py:7-12) and the `size_str` column: they are floating-point formatting.
- Comic ids are the paths themselves; the MD5 digest of the path (scanner/tasks.py:62) is taken to be injective.
- `parse_series_json` (scanner/utils.py:38-46): file reading and JSON parsing are inputs; the walk carries each directory's parsed `series.json`.
- `os.walk`, `os.stat`, `os.path.exists` and the archive libraries are inputs: the walk, the file sizes and mtimes, and the `Archive` value of each path.
- Image decoding, resizing and WebP encoding are an oracle (`SaveOutcome`) per entry name.
- The thread pool of phase two: results are counted in list order. The counters and the set of update tuples do not depend on the order; the order of the error log does.
- `get_pending_comics` returns some `limit` pending ids; the order SQLite returns them in is not modelled.
- The `failed` path of `full_scan_library_task` (scanner/tasks.py:262-264): exceptions are not modelled.
- `PRAGMA foreign_keys` and the error handling of `rescan_library_task` (scanner/tasks.py:270, 274-275).
- `last_filename` (scanner/tasks.py:233): the model records the last path component of the last pending comic; `os.sep` splitting is not modelled.
- Timestamps (`CURRENT_TIMESTAMP`, `time.time()`) are a `now` parameter.
- JSON decoding of the `errors` column: `_parse_job` decodes the text `json.dumps` wrote; any other text stays text. A full JSON parser is not modelled.
- SeriesStore.ToCell: a list is bound as its JSON text in every metadata column; the source encodes lists only in six columns, and binding a list to one of the others raises.
- Archives.SingleComicScan: the "Error processing" text carries the reason given by the archive library as a string; the library's own error messages are inputs.
- The legacy copy of `create_or_update_series` in database.py binds the same columns; the model holds one upsert.
- SeriesQueries.SearchSeries: the ranked full-text search and the LIKE search are functions given as parameters; FTS5 ranking and SQL `LIKE` matching are not modelled, nor is the decoding of JSON fields in the returned rows (db/series.py:373-380).
- SeriesQueries.GroupBySeries: the rows are taken in the order the query returns them; SQLite's `ORDER BY series, volume, chapter` collation is not modelled.
- SeriesQueries.Fan: ties of the fan order (same volume key, chapter key and filename) are broken by row order; SQLite's choice for `ROW_NUMBER` ties is not modelled.
- SeriesQueries.SortedGenres requires distinct display spellings, which SystemTagsInjective proves of every cache the model builds.
- The ratings functions of db/series.py (`add_rating`, `get_series_rating`, `get_user_rating`, lines 444-475) are single SQL statements with a floating-point average.
- ScanTasks.MetaText: only a non-empty string `series` or `title` is used as the series name. In the source any truthy value is used (scanner/tasks.py:84): a non-zero number or `true` becomes the name and is stored under SQLite's TEXT affinity, and a non-empty list or object makes `series not in series_map` (scanner/tasks.py:98) raise TypeError and ends the sync. The model skips such values and falls back to the next name, as if the value were empty.
- TagTaxonomy.Combined: a tag column is NULL/empty, a JSON list of strings, or text that fails to decode. A column that decodes to anything else is not modelled. A JSON string is extended into `combined` one character at a time (db/series.py:256-258). A number, `true` or `null` makes `extend` raise inside the `try`, so the row stops there, as `BadJson` does; an object contributes its keys. A list item that is not a string breaks the cache build: a truthy one, as in `["Action", 5]`, makes `normalize_tag` raise AttributeError outside the `try` (db/series.py:250, 263); a falsy one is skipped. The same shapes go unmodelled in SeriesQueries, where `s_genres + s_tags + s_demographics` (db/series.py:519-522) raises TypeError on mixed types.
- LegacyTags: genres and tags that are not JSON lists of strings are read as no items; a cell that fails to decode gives an empty list, as the bare `except` at database.py:640-647 does.
- LegacyTags.LegacySeriesByTags: the per-row fan query (database.py:667-676) is the fan of SeriesQueries, computed from the same comics.
- Progress.ProgressTable.GetUserStats: the completion rate (db/progress.py:129) is a rounded float and is not modelled.
- Progress.ProgressTable.GetAllProgress: the result is a map keyed by comic; the `last_read DESC` order of the dictionary's insertion is not modelled.
- Progress.PreferencesTable.UpdateWith: a number or a flag never passes a text CHECK, as in SQLite; a value in a column without a CHECK is written as given, and SQLite's other column affinity conversions are not modelled.
- An empty comic id, which the source treats as absent (`if comic_id:`), is not modelled: comic ids are never empty.
- Progress.BookmarksTable.GetBookmarks: ties in `created_at` are returned in some order; SQLite's choice is not modelled.
- The legacy readers `get_reading_progress` and `get_user_preferences` of database.py (lines 219-241 and 281-289) are those of db/progress.py with fewer columns; they are not modelled again.
- AiCache: SHA-256 is a function given as a parameter; floating-point numbers and values that are not JSON (the `str(data)` branch) are not modelled.
- AiCache: times are seconds on an integer clock; comparing `expires_at` as ISO text in `clear_expired_cache` is modelled as comparing the times.
- AiCache: the exception handlers that return None, False or 0 are not modelled, since the model's statements cannot fail; the recommendations are the decoded list `json.dumps` wrote.
- AiCache.FirstKeyed: SQLite returning the rows of an unindexed scan in rowid order is an assumption, not a guarantee of SQLite.
- AiJobs: `uuid.uuid4()` and `time.time()` are parameters, the clock an integer; `get_job` returns the stored job as a value, so the aliasing of the returned dictionary is not modelled.
- AiJobs: a result is truthy as JSON values are in Python; result values that are not JSON are not modelled.
- Prompts: series fields are text; `str()` of a list or number in a series field is not modelled, and attribute entries are dictionaries of strings.
- Prompts: the system prompt (ai/prompts.py:6-41) is a constant string and is not modelled.
- AiMatching: NFKC normalisation (`unicodedata.normalize`) is a function parameter of the library; the model does not say what it does.
- AiMatching: `\s` on text and `str.strip` both match the `str.isspace()` set, which `Text.IsSpace` spells out; the model uses that one predicate for both.
- AiMatching: the regex is modelled by its match semantics (the lazy first group ends at the first place where the rest matches); the regex engine itself is not modelled.
- AiMatching: `get_series_by_name`, the two LIKE queries with their `LIMIT 10` and the first-comic query are functions given as parameters; their SQL and the connections are not modelled.
- AiMatching: only the keys the route writes are modelled; the recommendation's other keys pass through untouched and the result is returned as an `Outcome`, with a missing title read as the empty title.
- AiMatching: `_enrich_series_match` mutates the row in place; the model returns the enriched row, which gives the same listed cover because the dictionary display evaluates the `id` entry (and so the enrichment) first.
- SeriesRoutes: `progress_percentage` is a float and is not modelled.
- SeriesRoutes: `get_series_with_comics` (the comic order and the folder-name fallback) is an input; a NULL `current_page`, on which the handler would raise, is not modelled.
- SeriesRoutes: `list_series`, `get_metadata`, `get_rating` and `filter_series_by_tags` only call functions modelled in other modules or left out; the average rating is a rounded float.
- SeriesRoutes.Ratings.RateSeries: as written, `from database import add_rating` (routes/series.py:28) fails with ImportError, since database.py defines no `add_rating`, so every request, a rating out of range included, ends in a 500 with nothing written. The model resolves the name to `add_rating` of db/series.py:444, as tests/test_api.py:136-168 expect.
- ScanTasks.FirstCleanupMatch: `\d` is taken as the ASCII digits; the other Unicode decimal digits that Python's `\d` also matches on text are not modelled.
- ScanJobs.ScanJobsTable.ScanRequestStatus: `os.path.exists(COMICS_DIR)` is the parameter `dirExists`, and the background task the handler schedules is not started by this member.
- ScanTasks, LibraryTasks: as written, scanner/tasks.py:6-10, 174 and 252 import `update_scan_progress`, `complete_scan_job`, `delete_comics_by_ids`, `get_pending_comics`, `create_scan_job`, `invalidate_tag_cache` and `get_running_scan_job` from database.py, which defines none of them, so the module cannot be imported. The model resolves each to the function of that name in db/jobs.py, db/comics.py or db/series.py.
- ScanTasks.FinishJob: completes the job with the corrected `CompletionErrors` (the list of records, as the progress updates store it). As written, scanner/tasks.py:249 passes `json.dumps(all_scan_errors)`, which db/jobs.py:57 encodes again; `CompletionErrorsAsWritten` and `CompletionDoubleEncoded` model that.
- LibraryTasks.ProcessLibrary: completes the job through `FinishJob`, so with the corrected errors argument, not the double-encoded one scanner/tasks.py:249 passes.
- Json: `json.dumps` escapes as each call site asks: with `ensure_ascii` in db/jobs.py:25 and :57, without it in ai/cache.py:40 and :151; `str(item)` of a nested value in db/nsfw.py is written without it. `sort_keys` is modelled by the key order of the value given.
- SeriesRoutes.Ratings: the `created_at` timestamp and the foreign keys of the `ratings` table are not modelled.
- Discovery: `GET /api/discovery/continue-reading` is a single SQL query with a float percentage and is not modelled.
- Discovery: the order of comics with equal `mtime` is left to SQLite; the model keeps table order.
- Discovery: the two recent-read queries (JOIN, DISTINCT, ORDER BY `last_read`, the seven-day clock) are inputs, `week` and `latest`; `RecentOf` counts their rows, which are distinct (series, series id) pairs.
- Discovery: the suggestion query's JOIN, GROUP BY and COUNT are inputs (`available_chapters` per row, table order); `matching_tags` is a set, since the order of `list(set)` is not fixed.
- Discovery: JSON decoding is trusted; `isinstance(..., list)` never holds for a text column and is not modelled.
- Nsfw: `str(item)` of a nested JSON list or object is written as JSON text; Python's repr of a nested value (single quotes, `True`) is not modelled, nor are floating-point JSON numbers.
- Nsfw: as written, `from .series import extract_tags, normalize_tag` (db/nsfw.py:9) fails with ImportError, since db/series.py defines `normalize_tag` only as nested functions (lines 248 and 499) and no `extract_tags`, so the module cannot be imported. The model assumes the evident intent: `normalize_tag` is the whitespace-collapsing lower-casing of db/series.py:248-250, and `extract_tags` is a function given as a parameter.
- Nsfw: `fnmatch` is modelled as POSIX `fnmatch.translate` matching (`*`, `?`, bracket classes with `!` and ranges); `os.path.normcase` changes nothing on POSIX. A `[` with no closing `]` is a literal.
- Nsfw.NsfwColumns.RecomputeNsfwFlags: the configuration is read by `GetNsfwConfig` and passed in; the connection handling and the log line are not modelled, and `flagged` is returned instead of logged.
- Nsfw: `is_adult` and `nsfw_override` are integers (truthy when non-zero); other SQLite values in those columns are not modelled.
- Lists: `created_at`, `added_at` and `updated_at` come from `CURRENT_TIMESTAMP`; the model takes the time as a parameter `now`, and rows with equal `updated_at` or `position` may come back in either order.
- Lists: the JSON decoding of `synonyms`, `authors` and `genres` in `get_list_items` is not modelled; a series is its name and cover id.
- Lists.ListsTable.UpdateList: arbitrary keyword arguments are modelled as the three whitelisted fields; `is_public` is a boolean rather than any truthy value.
- Lists.ListsTable.ReorderListItems: the rollback after an exception is not modelled, since with the model's total UPDATEs no exception arises.
- Lists: foreign keys are not enforced (the connection never enables them), so an item may name a list or series that does not exist, as in the source.
- ListRoutes: authentication is the caller's id given as a parameter; the series table is the set of its ids; the response bodies beyond the data the model returns (messages, echoed fields, timestamps) are not modelled.
- ListRoutes.UpdateListRoute: the 500 for a colliding rename stands for the unhandled `IntegrityError`, which FastAPI turns into an internal server error.
- Libraries: `created_at` is not modelled, and `is_default` is a boolean; a `None` or other truthy value passed to `update_library` is not modelled.
- Libraries.LibrariesTable.UpdateLibrary: arbitrary keyword arguments are modelled as the three whitelisted fields. On a UNIQUE error the uncommitted clearing of defaults is discarded with the connection, so nothing is written.
- Libraries.LibrariesTable.DeleteLibrary: the docstring says comics get a NULL `library_id`, but foreign keys are not enforced, so the comics keep the stale id; the comics table is not changed.
- Annotations: coordinates are `real` values; floating-point rounding is not modelled. Rows with equal `created_at` may come back in either order.
- Annotations.AnnotationsTable.UpdateAnnotation: arbitrary keyword arguments are modelled as the six whitelisted fields.
- Annotations: the cascading deletes on users and comics are not enforced, since foreign keys are off.
- Settings.PyInt: `int` is modelled for ASCII digits, signs, underscores and surrounding whitespace; Unicode digits are not modelled.
- Settings.SettingsTable.SetSetting: the `sqlite3.Error` branch that returns false is not modelled, since INSERT OR REPLACE on a text key cannot fail in the model.
- Settings: the default rows that the schema migration inserts (db/connection.py:487-503) are not modelled; the table starts empty and the reader's defaults stand in for them.

## Findings

| source | as written | input that shows it | evidently intended | confidence | as-written member | corrected member |
|---|---|---|---|---|---|---|
| scanner/tasks.py:49-54 | the ancestor loop runs while the path starts with `COMICS_DIR` and steps with `os.path.dirname` | `COMICS_DIR` is a file-system root ("/") and a directory without `series.json` has none above it: `dirname("/") == "/"` still starts with "/" | the walk stops after the library root | high, not executed | ScanTasks.RootLibraryWalkNeverEnds | ScanTasks.InheritedIsNearest |
| scanner/tasks.py:249 | `complete_scan_job` gets `json.dumps(all_scan_errors)`, and db/jobs.py:57 calls `json.dumps` on it again | any phase two with one error record: the completed job's `errors` decode to a string holding JSON text | the completed job stores the list of records, as the progress update at line 243 does | high, not executed | ScanTasks.CompletionDoubleEncoded | ScanTasks.CompletionMatchesProgress |
| ai/cache.py:154-161 | `cache_recommendations` uses INSERT OR REPLACE, but the table (db/connection.py:393-402) has no UNIQUE constraint on `(user_id, request_hash)`, so nothing is replaced and a second row is added | cache R1 for a user and hash, then cache R2 for the same key, as the `ignore_cache` path of routes/ai.py:261-288 does: the lookup keeps returning R1, and once R1 expires the DELETE also removes R2 | the newest result replaces the older one | medium, not executed (relies on rowid scan order) | AiCache.RecacheReturnsStale | AiCache.LatestWins |
