/** The library scanner: phase one (`sync_library_task`) reconciles the
    `comics` table with a walk of the library directory, phase two
    (`process_library_task`) drains the comics still waiting for inspection,
    and `full_scan_library_task` / `rescan_library_task` chain the two.

    The directory walk is an input: one `DirEntry` per directory in the order
    `os.walk` yields them, with the parsed `series.json` if the directory has
    one and the `(name, size, mtime)` of each file. A comic's id is its path
    (see `Comics`). Archive reading and thumbnail writing are the oracles of
    `Archives`, indexed by comic id. */
module ScanTasks {
  import opened Text
  import opened Wrappers
  import opened Collections
  import opened Json
  import opened ScannerUtils
  import opened Archives
  import opened Comics
  import opened SeriesStore
  import opened ScanJobs
  import opened TagTaxonomy

  // ---------------------------------------------------------------------------
  // The directory walk

  datatype FileStat = FileStat(name: String, sizeBytes: nat, mtime: int)

  /** One `(root, dirs, files)` triple of `os.walk`, with the directory's
      `series.json` already parsed (`parse_series_json` gives `{}` for a file it
      cannot parse). */
  datatype DirEntry = DirEntry(dir: Path, sidecar: Option<Metadata>, files: seq<FileStat>)

  /** `p` lies at or below `root`. */
  predicate Under(root: Path, p: Path) {
    |root| <= |p| && p[..|root|] == root
  }

  /** What `os.walk` guarantees: every directory lies under the library root,
      no directory comes twice, and no file name comes twice in one directory. */
  predicate WellFormedWalk(root: Path, walk: seq<DirEntry>) {
    (forall i :: 0 <= i < |walk| ==> Under(root, walk[i].dir))
    && (forall i, j :: 0 <= i < j < |walk| ==> walk[i].dir != walk[j].dir)
    && (forall i :: 0 <= i < |walk| ==> DistinctNames(walk[i].files))
  }

  predicate DistinctNames(files: seq<FileStat>) {
    forall a, b :: 0 <= a < b < |files| ==> files[a].name != files[b].name
  }

  /** `os.walk` is top-down: a directory comes after every ancestor of it that the walk visits. */
  predicate TopDown(walk: seq<DirEntry>) {
    forall i, j :: (0 <= i < |walk| && 0 <= j < |walk| && |walk[j].dir| < |walk[i].dir|
                    && walk[i].dir[..|walk[j].dir|] == walk[j].dir) ==> j < i
  }

  // ---------------------------------------------------------------------------
  // Metadata inheritance (`dir_metadata_cache`)

  /** The cache after visiting `walk`: every visited directory that had a `series.json`. */
  function CacheOf(walk: seq<DirEntry>): map<Path, Metadata>
    decreases |walk|
  {
    if walk == [] then map[]
    else
      var e := walk[|walk| - 1];
      var c := CacheOf(walk[..|walk| - 1]);
      if e.sidecar.Some? then c[e.dir := e.sidecar.value] else c
  }

  /** The metadata found by walking up from `dir` to the library root and
      taking the first directory the cache holds. */
  function Inherited(cache: map<Path, Metadata>, root: Path, dir: Path): Option<Metadata>
    requires Under(root, dir)
    decreases |dir|
  {
    if dir in cache then Some(cache[dir])
    else if |dir| == |root| then None
    else Inherited(cache, root, dir[..|dir| - 1])
  }

  /** `current_metadata` for a directory: its own `series.json` if it has one,
      else the inherited one. */
  function MetadataFor(cache: map<Path, Metadata>, root: Path, e: DirEntry): Option<Metadata>
    requires Under(root, e.dir)
  {
    if e.sidecar.Some? then e.sidecar else Inherited(cache, root, e.dir)
  }

  /** The inherited metadata is that of the nearest cached directory between
      `dir` and the root, and there is none exactly when no such directory is cached. */
  lemma {:induction false} InheritedIsNearest(cache: map<Path, Metadata>, root: Path, dir: Path)
    requires Under(root, dir)
    ensures Inherited(cache, root, dir).None? <==> forall k :: |root| <= k <= |dir| ==> dir[..k] !in cache
    ensures forall k :: |root| <= k <= |dir| && dir[..k] in cache
                        && (forall j :: k < j <= |dir| ==> dir[..j] !in cache) ==>
                          Inherited(cache, root, dir) == Some(cache[dir[..k]])
    decreases |dir|
  {
    assert dir[..|dir|] == dir;
    if dir !in cache && |dir| != |root| {
      var up := dir[..|dir| - 1];
      InheritedIsNearest(cache, root, up);
      assert forall k :: |root| <= k <= |up| ==> up[..k] == dir[..k];
    }
  }

  /** Two caches that agree on the directories from `dir` up to the root give the same metadata. */
  lemma {:induction false} InheritedAgree(c1: map<Path, Metadata>, c2: map<Path, Metadata>, root: Path, dir: Path)
    requires Under(root, dir)
    requires forall k :: |root| <= k <= |dir| ==> (dir[..k] in c1 <==> dir[..k] in c2)
    requires forall k :: |root| <= k <= |dir| && dir[..k] in c1 ==> c1[dir[..k]] == c2[dir[..k]]
    ensures Inherited(c1, root, dir) == Inherited(c2, root, dir)
    decreases |dir|
  {
    assert dir[..|dir|] == dir;
    if dir !in c1 && |dir| != |root| {
      var up := dir[..|dir| - 1];
      assert forall k :: |root| <= k <= |up| ==> up[..k] == dir[..k];
      InheritedAgree(c1, c2, root, up);
    }
  }

  lemma {:induction false} CacheOfMembers(walk: seq<DirEntry>, d: Path)
    requires forall i, j :: 0 <= i < j < |walk| ==> walk[i].dir != walk[j].dir
    ensures d in CacheOf(walk) <==> exists i :: 0 <= i < |walk| && walk[i].dir == d && walk[i].sidecar.Some?
    ensures forall i :: 0 <= i < |walk| && walk[i].dir == d && walk[i].sidecar.Some? ==>
              CacheOf(walk)[d] == walk[i].sidecar.value
    decreases |walk|
  {
    if walk != [] {
      var init := walk[..|walk| - 1];
      CacheOfMembers(init, d);
      assert forall i :: 0 <= i < |init| ==> init[i] == walk[i];
    }
  }

  /** With a top-down walk, the metadata a directory gets is that of the
      nearest directory at or above it (and under the root) that has a
      `series.json` anywhere in the walk. */
  lemma NearestSidecarWins(root: Path, walk: seq<DirEntry>, i: nat)
    requires WellFormedWalk(root, walk) && TopDown(walk) && i < |walk|
    ensures MetadataFor(CacheOf(walk[..i]), root, walk[i]) == Inherited(CacheOf(walk), root, walk[i].dir)
  {
    var dir := walk[i].dir;
    var before := walk[..i];
    assert distinctBefore: forall a, b :: 0 <= a < b < |before| ==> before[a].dir != before[b].dir;
    CacheOfMembers(walk, dir);
    if walk[i].sidecar.None? {
      CacheOfMembers(before, dir);
      assert dir !in CacheOf(walk);
      forall k | |root| <= k <= |dir|
        ensures dir[..k] in CacheOf(before) <==> dir[..k] in CacheOf(walk)
        ensures dir[..k] in CacheOf(before) ==> CacheOf(before)[dir[..k]] == CacheOf(walk)[dir[..k]]
      {
        CacheAgreesAbove(root, walk, i, k);
      }
      InheritedAgree(CacheOf(before), CacheOf(walk), root, dir);
    } else {
      assert dir[..|dir|] == dir;
    }
  }

  /** In a top-down walk, every directory above `walk[i]` that the whole walk
      caches was already cached before `walk[i]` was visited, with the same metadata. */
  lemma CacheAgreesAbove(root: Path, walk: seq<DirEntry>, i: nat, k: nat)
    requires WellFormedWalk(root, walk) && TopDown(walk) && i < |walk|
    requires walk[i].sidecar.None? && |root| <= k <= |walk[i].dir|
    ensures walk[i].dir[..k] in CacheOf(walk[..i]) <==> walk[i].dir[..k] in CacheOf(walk)
    ensures walk[i].dir[..k] in CacheOf(walk[..i]) ==>
              CacheOf(walk[..i])[walk[i].dir[..k]] == CacheOf(walk)[walk[i].dir[..k]]
  {
    var dir, before, after := walk[i].dir, walk[..i], walk[i..];
    assert walk == before + after;
    var d := dir[..k];
    forall m | 0 <= m < |after| ensures after[m].dir != d || after[m].sidecar.None? {
      assert after[m] == walk[i + m];
      if m > 0 && k == |dir| {
        assert d == dir;
      } else if m > 0 {
        assert |d| < |dir| && dir[..|d|] == d;
      }
    }
    CacheOfUnaffected(before, after, d);
  }

  /** Visiting directories other than `d`, or `d` without a `series.json`,
      leaves the cache entry for `d` as it was. */
  lemma {:induction false} CacheOfUnaffected(pre: seq<DirEntry>, post: seq<DirEntry>, d: Path)
    requires forall m :: 0 <= m < |post| ==> post[m].dir != d || post[m].sidecar.None?
    ensures d in CacheOf(pre + post) <==> d in CacheOf(pre)
    ensures d in CacheOf(pre) ==> CacheOf(pre + post)[d] == CacheOf(pre)[d]
    decreases |post|
  {
    if post != [] {
      var init := post[..|post| - 1];
      var all := pre + post;
      assert all[..|all| - 1] == pre + init;
      assert all[|all| - 1] == post[|post| - 1];
      CacheOfUnaffected(pre, init, d);
    } else {
      assert pre + post == pre;
    }
  }

  /** The ancestor walk as written (lines 49-54): it keeps going while the path
      still starts with the library root, and `os.path.dirname` of a
      file-system root is that root again. `fuel` bounds the iterations; None
      means the loop was still running when the fuel ran out. */
  function AncestorWalkAsWritten(cache: map<Path, Metadata>, root: Path, check: Path, fuel: nat)
    : Option<Option<Metadata>>
    decreases fuel
  {
    if !Under(root, check) then Some(None)
    else if check in cache then Some(Some(cache[check]))
    else if fuel == 0 then None
    else AncestorWalkAsWritten(cache, root, if check == [] then [] else check[..|check| - 1], fuel - 1)
  }

  /** With the library at the file-system root and no cached directory on the
      way up, the loop as written never ends, however much fuel it is given. */
  lemma {:induction false} RootLibraryWalkNeverEnds(cache: map<Path, Metadata>, dir: Path, fuel: nat)
    requires forall k :: 0 <= k <= |dir| ==> dir[..k] !in cache
    ensures AncestorWalkAsWritten(cache, [], dir, fuel) == None
    decreases fuel
  {
    assert dir[..|dir|] == dir;
    if fuel > 0 {
      var up := if dir == [] then [] else dir[..|dir| - 1];
      assert forall k :: 0 <= k <= |up| ==> up[..k] == dir[..k];
      RootLibraryWalkNeverEnds(cache, up, fuel - 1);
    }
  }

  /** Below a root that is not the file-system root, the loop as written ends
      within `|dir|` steps with the same result as the corrected `Inherited`. */
  lemma {:induction false} AncestorWalkAgrees(cache: map<Path, Metadata>, root: Path, dir: Path, fuel: nat)
    requires root != [] && Under(root, dir) && fuel >= |dir| - |root| + 1
    ensures AncestorWalkAsWritten(cache, root, dir, fuel) == Some(Inherited(cache, root, dir))
    decreases |dir|
  {
    if dir !in cache {
      var up := dir[..|dir| - 1];
      if |dir| == |root| {
        assert !Under(root, up);
      } else {
        assert up[..|root|] == root;
        AncestorWalkAgrees(cache, root, up, fuel - 1);
      }
    }
  }

  /** The corrected ancestor walk: stops after looking at the library root. */
  method InheritMetadata(cache: map<Path, Metadata>, root: Path, dir: Path) returns (m: Option<Metadata>)
    requires Under(root, dir)
    ensures m == Inherited(cache, root, dir)
  {
    var check := dir;
    while true
      invariant Under(root, check)
      invariant Inherited(cache, root, dir) == Inherited(cache, root, check)
      decreases |check|
    {
      if check in cache {
        return Some(cache[check]);
      }
      if |check| == |root| {
        return None;
      }
      check := check[..|check| - 1];
    }
  }

  // ---------------------------------------------------------------------------
  // From a file to a comic record

  /** `.*$` matches from index `k`: `.` does not match a newline, and without
      MULTILINE `$` matches at the end or just before a final newline, so no
      newline may occur from `k` on except as the last character. */
  predicate RestToEnd(s: String, k: nat) {
    forall m :: k <= m < |s| - 1 ==> s[m] != '\n'
  }

  /** `\s*\.?\s*\d+.*$` at index `j`: what must follow the volume/chapter word
      for the series-name cleanup to apply. */
  predicate NumberFollows(s: String, j: nat)
    requires j <= |s|
  {
    var a := j + SpaceRun(s[j..]);
    var b := if a < |s| && s[a] == '.' then a + 1 else a;
    var c := b + SpaceRun(s[b..]);
    c < |s| && IsDigit(s[c]) && RestToEnd(s, c + 1)
  }

  /** `w` (lower case) occurs at index `j` of `s`, ignoring case. */
  predicate TokenAt(s: String, j: nat, w: String) {
    j + |w| <= |s| && forall m :: 0 <= m < |w| ==> Lower(s[j + m]) == w[m]
  }

  /** `\s*(v|c|vol|chapter|ch)\s*\.?\s*\d+.*$` matches from index `i` (case-insensitive).
      The leading `\s*` must take the whole run of spaces, since each word starts with a letter. */
  predicate CleanupMatchAt(s: String, i: nat)
    requires i <= |s|
  {
    var j := i + SpaceRun(s[i..]);
    || (TokenAt(s, j, "v") && NumberFollows(s, j + 1))
    || (TokenAt(s, j, "c") && NumberFollows(s, j + 1))
    || (TokenAt(s, j, "vol") && NumberFollows(s, j + 3))
    || (TokenAt(s, j, "chapter") && NumberFollows(s, j + 7))
    || (TokenAt(s, j, "ch") && NumberFollows(s, j + 2))
  }

  /** Where `re.sub` finds its (leftmost) match, searching from `from`. */
  function FirstCleanupMatch(s: String, from: nat): (r: Option<nat>)
    requires from <= |s|
    ensures r.Some? ==> from <= r.value < |s| && CleanupMatchAt(s, r.value)
                        && forall k :: from <= k < r.value ==> !CleanupMatchAt(s, k)
    ensures r.None? ==> forall k :: from <= k < |s| ==> !CleanupMatchAt(s, k)
    decreases |s| - from
  {
    if from == |s| then None
    else if CleanupMatchAt(s, from) then Some(from)
    else FirstCleanupMatch(s, from + 1)
  }

  /** The series name read from a file stem (line 81): everything from the
      first volume/chapter token on is cut, then the rest is stripped. The
      pattern has no word boundary, so a word ending in "c" or "v" followed by
      a number loses that letter. */
  function SeriesFromStem(stem: String): (r: String)
    ensures IsStripped(r)
    ensures FirstCleanupMatch(stem, 0).None? ==> r == Strip(stem)
    ensures FirstCleanupMatch(stem, 0).Some? ==> r == Strip(stem[..FirstCleanupMatch(stem, 0).value])
  {
    match FirstCleanupMatch(stem, 0)
    case Some(i) => Strip(stem[..i])
    case None => Strip(stem)
  }

  /** No suffix match starts at `i` when the first character after the white
      space there is not, ignoring case, the first letter of a volume or
      chapter word. */
  lemma NoMatchAtOther(s: String, i: nat)
    requires i <= |s|
    requires i + SpaceRun(s[i..]) < |s|
    requires Lower(s[i + SpaceRun(s[i..])]) != 'v' && Lower(s[i + SpaceRun(s[i..])]) != 'c'
    ensures !CleanupMatchAt(s, i)
  {
    var j := i + SpaceRun(s[i..]);
    forall w | w in ["v", "c", "vol", "chapter", "ch"]
      ensures !TokenAt(s, j, w)
    {
      assert Lower(s[j + 0]) != w[0];
    }
  }

  /** `.*` cannot cross a newline: in "A v1\nB" the " v1" is followed by
      another line, so the suffix pattern does not match there and the stem
      keeps it. */
  lemma NewlineAfterNumberKept(s: String)
    requires s == "A v1\nB"
    ensures !CleanupMatchAt(s, 1) && !CleanupMatchAt(s, 2)
  {
    assert !NumberFollows(s, 3) by {
      assert SpaceRun(s[3..]) == 0 && s[4] == '\n';
    }
    assert SpaceRun(s[2..]) == 0;
    assert SpaceRun(s[1..]) == 1 + SpaceRun(s[2..]);
    forall w | w in ["c", "vol", "chapter", "ch"]
      ensures !TokenAt(s, 2, w)
    {
      assert Lower(s[2 + 0]) != w[0] || Lower(s[2 + 1]) != w[1];
    }
  }

  /** " v1" followed by a final newline matches. */
  lemma FinalNewlineMatches(t: String)
    requires t == "A v1\n"
    ensures CleanupMatchAt(t, 1)
  {
    assert SpaceRun(t[2..]) == 0;
    assert SpaceRun(t[1..]) == 1 + SpaceRun(t[2..]);
    assert TokenAt(t, 2, "v");
    assert SpaceRun(t[3..]) == 0;
    assert IsDigit(t[3]) && RestToEnd(t, 4);
  }

  /** A single final newline still lets the suffix go, since `$` also matches
      before it. */
  lemma FinalNewlineCut()
    ensures SeriesFromStem("A v1\n") == "A"
  {
    var t := "A v1\n";
    assert FirstCleanupMatch(t, 0) == Some(1) by {
      assert SpaceRun(t[0..]) == 0;
      NoMatchAtOther(t, 0);
      FinalNewlineMatches(t);
    }
    assert Strip(t[..1]) == "A" by {
      assert t[..1] == "A";
      StripOfStripped("A");
    }
  }

  /** A string value of the metadata that Python treats as true. */
  function MetaText(meta: Option<Metadata>, key: String): (r: Option<String>)
    ensures r.Some? ==> r.value != []
  {
    if meta.Some? && key in meta.value && meta.value[key].MStr? && meta.value[key].s != []
    then Some(meta.value[key].s) else None
  }

  /** What phase one records for a new or changed archive. */
  datatype Discovered = Discovered(
    id: Path,
    filename: String,
    series: String,
    category: String,
    subcategory: Option<String>,
    sizeBytes: nat,
    mtime: int,
    info: FileInfo,
    metadata: Option<Metadata>)

  /** Series name from the path (lines 76-84): the third component below the
      root when there is one, else the cleaned file stem; a truthy `series`,
      then `title`, from the metadata overrides it. */
  function SeriesName(rel: seq<String>, filename: String, meta: Option<Metadata>): (r: String)
    ensures MetaText(meta, "series").Some? ==> r == MetaText(meta, "series").value
    ensures MetaText(meta, "series").None? && MetaText(meta, "title").Some? ==> r == MetaText(meta, "title").value
    ensures MetaText(meta, "series").None? && MetaText(meta, "title").None? ==>
              r == if |rel| >= 3 then rel[2] else SeriesFromStem(Stem(filename))
  {
    var fromPath := if |rel| >= 3 then rel[2] else SeriesFromStem(Stem(filename));
    match MetaText(meta, "series")
    case Some(s) => s
    case None =>
      match MetaText(meta, "title")
      case Some(t) => t
      case None => fromPath
  }

  /** The `comic_data` record of one archive file of directory `e`. */
  function Discover(root: Path, e: DirEntry, meta: Option<Metadata>, f: FileStat): (d: Discovered)
    requires Under(root, e.dir)
    ensures d.id == e.dir + [f.name] && d.filename == f.name
    ensures d.sizeBytes == f.sizeBytes && d.mtime == f.mtime && d.metadata == meta
    ensures d.category == if |e.dir| > |root| then e.dir[|root|] else "Uncategorized"
    ensures d.subcategory == if |e.dir| > |root| + 1 then Some(e.dir[|root| + 1]) else None
    ensures d.series == SeriesName(e.dir[|root|..], f.name, meta)
    ensures d.info == ParseFilenameInfo(f.name)
  {
    var rel := e.dir[|root|..];
    Discovered(e.dir + [f.name], f.name, SeriesName(rel, f.name, meta),
               if |rel| > 0 then rel[0] else "Uncategorized",
               if |rel| > 1 then Some(rel[1]) else None,
               f.sizeBytes, f.mtime, ParseFilenameInfo(f.name), meta)
  }

  /** The archive files of one directory, in listing order. */
  function ArchivesIn(root: Path, e: DirEntry, meta: Option<Metadata>, files: seq<FileStat>): (ds: seq<Discovered>)
    requires Under(root, e.dir)
    decreases |files|
  {
    if files == [] then []
    else
      var f := files[|files| - 1];
      ArchivesIn(root, e, meta, files[..|files| - 1]) + (if IsCbrOrCbz(f.name) then [Discover(root, e, meta, f)] else [])
  }

  /** Every archive file of the walk, with the metadata its directory had at the time. */
  function Scanned(root: Path, walk: seq<DirEntry>): (ds: seq<Discovered>)
    requires forall i :: 0 <= i < |walk| ==> Under(root, walk[i].dir)
    decreases |walk|
  {
    if walk == [] then []
    else
      var init := walk[..|walk| - 1];
      var e := walk[|walk| - 1];
      Scanned(root, init) + ArchivesIn(root, e, MetadataFor(CacheOf(init), root, e), e.files)
  }

  function IdsOf(ds: seq<Discovered>): (ids: set<Path>)
    ensures forall k :: 0 <= k < |ds| ==> ds[k].id in ids
    ensures forall id :: id in ids ==> exists k :: 0 <= k < |ds| && ds[k].id == id
  {
    set k | 0 <= k < |ds| :: ds[k].id
  }

  predicate DistinctIds(ds: seq<Discovered>) {
    forall a, b :: 0 <= a < b < |ds| ==> ds[a].id != ds[b].id
  }

  /** The path of a record's directory. */
  function Parent(id: Path): Path { if id == [] then [] else id[..|id| - 1] }

  lemma ArchivesInFacts(root: Path, e: DirEntry, meta: Option<Metadata>, files: seq<FileStat>)
    requires Under(root, e.dir) && DistinctNames(files)
    ensures DistinctIds(ArchivesIn(root, e, meta, files))
    ensures forall d :: d in ArchivesIn(root, e, meta, files) ==>
              d.id != [] && Parent(d.id) == e.dir && exists f :: f in files && d == Discover(root, e, meta, f)
  {
    ArchivesInFrom(root, e, meta, files);
    ArchivesInDistinct(root, e, meta, files);
  }

  /** Each archive found in a directory is one of its files, identified by its path there. */
  lemma {:induction false} ArchivesInFrom(root: Path, e: DirEntry, meta: Option<Metadata>, files: seq<FileStat>)
    requires Under(root, e.dir)
    ensures forall d :: d in ArchivesIn(root, e, meta, files) ==>
              d.id != [] && Parent(d.id) == e.dir && exists f :: f in files && d == Discover(root, e, meta, f)
    decreases |files|
  {
    if files != [] {
      var init, f := files[..|files| - 1], files[|files| - 1];
      ArchivesInFrom(root, e, meta, init);
      assert Parent(Discover(root, e, meta, f).id) == e.dir;
      assert forall g :: g in init ==> g in files;
    }
  }

  /** Distinct file names give distinct archive paths. */
  lemma {:induction false} ArchivesInDistinct(root: Path, e: DirEntry, meta: Option<Metadata>, files: seq<FileStat>)
    requires Under(root, e.dir) && DistinctNames(files)
    ensures DistinctIds(ArchivesIn(root, e, meta, files))
    decreases |files|
  {
    if files != [] {
      var init, f := files[..|files| - 1], files[|files| - 1];
      assert DistinctNames(init);
      ArchivesInDistinct(root, e, meta, init);
      ArchivesInFrom(root, e, meta, init);
      var prev := ArchivesIn(root, e, meta, init);
      var last := if IsCbrOrCbz(f.name) then [Discover(root, e, meta, f)] else [];
      forall x, y | x in prev && y in last ensures x.id != y.id {
        var g :| g in init && x == Discover(root, e, meta, g);
        var a :| 0 <= a < |init| && init[a] == g;
        assert files[a] == g;
        DiscoverDistinct(root, e, meta, g, f);
      }
      DistinctConcat(prev, last);
    }
  }

  lemma DiscoverDistinct(root: Path, e: DirEntry, meta: Option<Metadata>, f: FileStat, g: FileStat)
    requires Under(root, e.dir) && f.name != g.name
    ensures Discover(root, e, meta, f).id != Discover(root, e, meta, g).id
  {
    assert Discover(root, e, meta, f).id[|e.dir|] == f.name;
  }

  lemma DistinctConcat(a: seq<Discovered>, b: seq<Discovered>)
    requires DistinctIds(a) && DistinctIds(b)
    requires forall x, y :: x in a && y in b ==> x.id != y.id
    ensures DistinctIds(a + b)
  {
    forall p, q | 0 <= p < q < |a + b|
      ensures (a + b)[p].id != (a + b)[q].id
    {
      if q < |a| {
      } else if p >= |a| {
        assert (a + b)[p] == b[p - |a|] && (a + b)[q] == b[q - |a|];
      } else {
        assert (a + b)[p] in a && (a + b)[q] in b;
      }
    }
  }

  /** Every record of the walk names a file of one of its directories. */
  lemma {:induction false} ScannedParents(root: Path, walk: seq<DirEntry>)
    requires WellFormedWalk(root, walk)
    ensures forall d :: d in Scanned(root, walk) ==>
              d.id != [] && exists i :: 0 <= i < |walk| && Parent(d.id) == walk[i].dir
    decreases |walk|
  {
    if walk != [] {
      var init := walk[..|walk| - 1];
      var e := walk[|walk| - 1];
      assert forall i :: 0 <= i < |init| ==> init[i] == walk[i];
      ScannedParents(root, init);
      var meta := MetadataFor(CacheOf(init), root, e);
      ArchivesInFacts(root, e, meta, e.files);
      forall d | d in Scanned(root, walk)
        ensures d.id != [] && exists i :: 0 <= i < |walk| && Parent(d.id) == walk[i].dir
      {
        if d in Scanned(root, init) {
          var i :| 0 <= i < |init| && Parent(d.id) == init[i].dir;
          assert Parent(d.id) == walk[i].dir;
        } else {
          assert Parent(d.id) == walk[|walk| - 1].dir;
        }
      }
    }
  }

  /** The walk yields every archive once: no two records share an id. */
  lemma {:induction false} ScannedDistinct(root: Path, walk: seq<DirEntry>)
    requires WellFormedWalk(root, walk)
    ensures DistinctIds(Scanned(root, walk))
    decreases |walk|
  {
    if walk != [] {
      var init := walk[..|walk| - 1];
      var e := walk[|walk| - 1];
      assert forall i :: 0 <= i < |init| ==> init[i] == walk[i];
      ScannedDistinct(root, init);
      ScannedParents(root, init);
      var meta := MetadataFor(CacheOf(init), root, e);
      ArchivesInFacts(root, e, meta, e.files);
      var a := Scanned(root, init);
      var b := ArchivesIn(root, e, meta, e.files);
      forall x, y | x in a && y in b
        ensures x.id != y.id
      {
        var i :| 0 <= i < |init| && Parent(x.id) == init[i].dir;
        assert walk[i].dir != walk[|walk| - 1].dir;
      }
      DistinctConcat(a, b);
    }
  }

  // ---------------------------------------------------------------------------
  // Classification against the stored rows (lines 69-74)

  /** A file whose id the table does not hold. */
  predicate IsNew(rows: map<Path, ComicRow>, d: Discovered) {
    d.id !in rows
  }

  /** A stored file whose mtime or size differs from the stored one. */
  predicate IsChanged(rows: map<Path, ComicRow>, d: Discovered) {
    d.id in rows && (rows[d.id].mtime != d.mtime || rows[d.id].sizeBytes != d.sizeBytes)
  }

  /** `new_comics`. */
  function NewOnes(rows: map<Path, ComicRow>, ds: seq<Discovered>): (r: seq<Discovered>)
    decreases |ds|
  {
    if ds == [] then []
    else
      var d := ds[|ds| - 1];
      assert ds == ds[..|ds| - 1] + [d];
      NewOnes(rows, ds[..|ds| - 1]) + (if IsNew(rows, d) then [d] else [])
  }

  /** `changed_comics`. */
  function ChangedOnes(rows: map<Path, ComicRow>, ds: seq<Discovered>): (r: seq<Discovered>)
    decreases |ds|
  {
    if ds == [] then []
    else
      var d := ds[|ds| - 1];
      assert ds == ds[..|ds| - 1] + [d];
      ChangedOnes(rows, ds[..|ds| - 1]) + (if IsChanged(rows, d) then [d] else [])
  }

  /** New and changed records together, in walk order: the ones `series_map` sees. */
  function Touched(rows: map<Path, ComicRow>, ds: seq<Discovered>): (r: seq<Discovered>)
    decreases |ds|
  {
    if ds == [] then []
    else
      var d := ds[|ds| - 1];
      assert ds == ds[..|ds| - 1] + [d];
      Touched(rows, ds[..|ds| - 1]) + (if IsNew(rows, d) || IsChanged(rows, d) then [d] else [])
  }

  /** The three lists hold exactly the records of their kind. */
  lemma {:induction false} KindMembers(rows: map<Path, ComicRow>, ds: seq<Discovered>)
    ensures forall d :: d in NewOnes(rows, ds) <==> d in ds && IsNew(rows, d)
    ensures forall d :: d in ChangedOnes(rows, ds) <==> d in ds && IsChanged(rows, d)
    ensures forall d :: d in Touched(rows, ds) <==> d in ds && (IsNew(rows, d) || IsChanged(rows, d))
    decreases |ds|
  {
    if ds != [] {
      KindMembers(rows, ds[..|ds| - 1]);
      assert ds == ds[..|ds| - 1] + [ds[|ds| - 1]];
    }
  }

  /** A sub-list of a list without repeated ids has no repeated ids either. */
  lemma {:induction false} FilteredDistinct(rows: map<Path, ComicRow>, ds: seq<Discovered>)
    requires DistinctIds(ds)
    ensures DistinctIds(NewOnes(rows, ds)) && DistinctIds(ChangedOnes(rows, ds))
    decreases |ds|
  {
    if ds != [] {
      var init := ds[..|ds| - 1];
      var d := ds[|ds| - 1];
      assert forall x :: x in init ==> x.id != d.id by {
        forall x | x in init ensures x.id != d.id {
          var k :| 0 <= k < |init| && init[k] == x;
          assert ds[k] == x;
        }
      }
      assert DistinctIds(init) by {
        forall a, b | 0 <= a < b < |init| ensures init[a].id != init[b].id {
          assert init[a] == ds[a] && init[b] == ds[b];
        }
      }
      FilteredDistinct(rows, init);
      KindMembers(rows, init);
      DistinctConcat(NewOnes(rows, init), if IsNew(rows, d) then [d] else []);
      DistinctConcat(ChangedOnes(rows, init), if IsChanged(rows, d) then [d] else []);
    }
  }

  // ---------------------------------------------------------------------------
  // `series_map`: the first new or changed comic of each series name

  /** The series name of each touched record, mapped to the first record that had it. */
  function Seeds(ts: seq<Discovered>): (m: map<String, Discovered>)
    decreases |ts|
  {
    if ts == [] then map[]
    else
      var d := ts[|ts| - 1];
      var m := Seeds(ts[..|ts| - 1]);
      if d.series in m then m else m[d.series := d]
  }

  /** The keys of `series_map` in insertion order. */
  function SeedOrder(ts: seq<Discovered>): (order: seq<String>)
    decreases |ts|
  {
    if ts == [] then []
    else
      var d := ts[|ts| - 1];
      if d.series in Seeds(ts[..|ts| - 1]) then SeedOrder(ts[..|ts| - 1])
      else SeedOrder(ts[..|ts| - 1]) + [d.series]
  }

  /** Each series name seen is a key, and its entry is the first record with that
      name: later records never replace it (lines 98-102). */
  lemma {:induction false} FirstSeenIsCover(ts: seq<Discovered>, m: nat)
    requires m < |ts| && forall j :: 0 <= j < m ==> ts[j].series != ts[m].series
    ensures ts[m].series in Seeds(ts) && Seeds(ts)[ts[m].series] == ts[m]
    decreases |ts|
  {
    var init := ts[..|ts| - 1];
    if m < |ts| - 1 {
      assert init[m] == ts[m];
      FirstSeenIsCover(init, m);
    } else {
      SeedsMembers(init, ts[m].series);
      assert forall j :: 0 <= j < |init| ==> init[j] == ts[j];
    }
  }

  lemma {:induction false} SeedsMembers(ts: seq<Discovered>, name: String)
    ensures name in Seeds(ts) <==> exists j :: 0 <= j < |ts| && ts[j].series == name
    ensures name in Seeds(ts) ==> Seeds(ts)[name] in ts && Seeds(ts)[name].series == name
    decreases |ts|
  {
    if ts != [] {
      var init := ts[..|ts| - 1];
      SeedsMembers(init, name);
      assert forall j :: 0 <= j < |init| ==> init[j] == ts[j];
    }
  }

  /** `series_map` lists each name once, and exactly its keys. */
  lemma {:induction false} SeedOrderIsKeys(ts: seq<Discovered>)
    ensures forall a, b :: 0 <= a < b < |SeedOrder(ts)| ==> SeedOrder(ts)[a] != SeedOrder(ts)[b]
    ensures forall n :: n in SeedOrder(ts) <==> n in Seeds(ts)
    decreases |ts|
  {
    if ts != [] {
      SeedOrderIsKeys(ts[..|ts| - 1]);
    }
  }

  // ---------------------------------------------------------------------------
  // The table after phase one

  /** The rows whose files are still on disk (`missing_ids` removed, lines 118-121). */
  function Kept(rows: map<Path, ComicRow>, ds: seq<Discovered>): (r: map<Path, ComicRow>)
    ensures r.Keys == rows.Keys * IdsOf(ds)
  {
    map id | id in rows && id in IdsOf(ds) :: rows[id]
  }

  /** The `(size_str, size_bytes, mtime, id)` tuples of the changed comics (line 127). */
  function ResetsOf(cs: seq<Discovered>): (rs: seq<Reset>)
    ensures |rs| == |cs|
    ensures forall k :: 0 <= k < |cs| ==> rs[k] == Reset(cs[k].sizeBytes, cs[k].mtime, cs[k].id)
  {
    seq(|cs|, k requires 0 <= k < |cs| => Reset(cs[k].sizeBytes, cs[k].mtime, cs[k].id))
  }

  /** The row inserted for a new comic (lines 150-170): not yet inspected. */
  function NewRow(d: Discovered, seriesIds: map<String, nat>): ComicRow {
    ComicRow(d.series, d.series, d.category, d.filename, d.sizeBytes, d.mtime, None, false, false,
             d.info.volume, d.info.chapter,
             if d.series in seriesIds then Some(seriesIds[d.series]) else None)
  }

  function InsertAll(rows: map<Path, ComicRow>, ns: seq<Discovered>, seriesIds: map<String, nat>)
    : (r: map<Path, ComicRow>)
    ensures r.Keys == rows.Keys + IdsOf(ns)
    decreases |ns|
  {
    if ns == [] then rows
    else
      var d := ns[|ns| - 1];
      assert IdsOf(ns) == IdsOf(ns[..|ns| - 1]) + {d.id} by {
        assert forall k :: 0 <= k < |ns| - 1 ==> ns[..|ns| - 1][k] == ns[k];
      }
      InsertAll(rows, ns[..|ns| - 1], seriesIds)[d.id := NewRow(d, seriesIds)]
  }

  /** The comics table at the end of phase one, given the series ids of the upsert. */
  function SyncedRows(rows: map<Path, ComicRow>, ds: seq<Discovered>, seriesIds: map<String, nat>)
    : map<Path, ComicRow>
  {
    InsertAll(ApplyResets(Kept(rows, ds), ResetsOf(ChangedOnes(rows, ds))), NewOnes(rows, ds), seriesIds)
  }

  /** With distinct ids, each inserted comic ends up with its own new row, and
      every other row is left alone. */
  lemma {:induction false} InsertAllEffect(rows: map<Path, ComicRow>, ns: seq<Discovered>,
                                           seriesIds: map<String, nat>, id: Path)
    requires DistinctIds(ns)
    ensures forall k :: 0 <= k < |ns| && ns[k].id == id ==> InsertAll(rows, ns, seriesIds)[id] == NewRow(ns[k], seriesIds)
    ensures id !in IdsOf(ns) && id in rows ==> InsertAll(rows, ns, seriesIds)[id] == rows[id]
    decreases |ns|
  {
    if ns != [] {
      var init := ns[..|ns| - 1];
      assert forall k :: 0 <= k < |init| ==> init[k] == ns[k];
      InsertAllEffect(rows, init, seriesIds, id);
    }
  }

  /** With distinct ids, each reset row gets its own size and mtime, and every
      other row is left alone. */
  lemma {:induction false} ResetsEffect(rows: map<Path, ComicRow>, rs: seq<Reset>, id: Path)
    requires forall a, b :: 0 <= a < b < |rs| ==> rs[a].id != rs[b].id
    ensures forall k :: 0 <= k < |rs| && rs[k].id == id && id in rows ==>
              ApplyResets(rows, rs)[id] == ResetRow(rows[id], rs[k].sizeBytes, rs[k].mtime)
    ensures (forall k :: 0 <= k < |rs| ==> rs[k].id != id) && id in rows ==> ApplyResets(rows, rs)[id] == rows[id]
    decreases |rs|
  {
    if rs != [] {
      var init := rs[..|rs| - 1];
      assert forall k :: 0 <= k < |init| ==> init[k] == rs[k];
      ResetsEffect(rows, init, id);
    }
  }

  /** After phase one, the table holds exactly the archives on disk, each with
      the size and mtime the walk reported. */
  lemma SyncedRowsAgree(rows: map<Path, ComicRow>, ds: seq<Discovered>, seriesIds: map<String, nat>)
    requires DistinctIds(ds)
    ensures SyncedRows(rows, ds, seriesIds).Keys == IdsOf(ds)
    ensures forall d :: d in ds ==> SyncedRows(rows, ds, seriesIds)[d.id].mtime == d.mtime
                                    && SyncedRows(rows, ds, seriesIds)[d.id].sizeBytes == d.sizeBytes
  {
    SyncedKeys(rows, ds, seriesIds);
    forall d | d in ds
      ensures SyncedRows(rows, ds, seriesIds)[d.id].mtime == d.mtime
      ensures SyncedRows(rows, ds, seriesIds)[d.id].sizeBytes == d.sizeBytes
    {
      SyncedRowAgrees(rows, ds, seriesIds, d);
    }
  }

  /** The synced table's ids are the walk's. */
  lemma SyncedKeys(rows: map<Path, ComicRow>, ds: seq<Discovered>, seriesIds: map<String, nat>)
    ensures SyncedRows(rows, ds, seriesIds).Keys == IdsOf(ds)
  {
    var news := NewOnes(rows, ds);
    KindMembers(rows, ds);
    assert IdsOf(news) <= IdsOf(ds) by {
      forall id | id in IdsOf(news) ensures id in IdsOf(ds) {
        var k :| 0 <= k < |news| && news[k].id == id;
        assert news[k] in ds;
      }
    }
    forall id | id in IdsOf(ds) ensures id in rows || id in IdsOf(news) {
      var k :| 0 <= k < |ds| && ds[k].id == id;
      if id !in rows { assert ds[k] in news; }
    }
  }

  /** One archive of the walk: its synced row carries the walk's size and mtime. */
  lemma SyncedRowAgrees(rows: map<Path, ComicRow>, ds: seq<Discovered>, seriesIds: map<String, nat>, d: Discovered)
    requires DistinctIds(ds) && d in ds
    ensures d.id in SyncedRows(rows, ds, seriesIds)
    ensures SyncedRows(rows, ds, seriesIds)[d.id].mtime == d.mtime
    ensures SyncedRows(rows, ds, seriesIds)[d.id].sizeBytes == d.sizeBytes
  {
    var news := NewOnes(rows, ds);
    var reset := ApplyResets(Kept(rows, ds), ResetsOf(ChangedOnes(rows, ds)));
    FilteredDistinct(rows, ds);
    KindMembers(rows, ds);
    InsertAllEffect(reset, news, seriesIds, d.id);
    if IsNew(rows, d) {
      var k :| 0 <= k < |news| && news[k] == d;
    } else {
      forall k | 0 <= k < |news| ensures news[k].id != d.id {
        assert news[k] in news;
      }
      ResetRowAgrees(rows, ds, d);
    }
  }

  /** A stored archive still on disk has, once the changed ones are reset, the
      walk's size and mtime: reset if it changed, and equal already if not. */
  lemma ResetRowAgrees(rows: map<Path, ComicRow>, ds: seq<Discovered>, d: Discovered)
    requires DistinctIds(ds) && d in ds && d.id in rows
    ensures d.id in ApplyResets(Kept(rows, ds), ResetsOf(ChangedOnes(rows, ds)))
    ensures ApplyResets(Kept(rows, ds), ResetsOf(ChangedOnes(rows, ds)))[d.id].mtime == d.mtime
    ensures ApplyResets(Kept(rows, ds), ResetsOf(ChangedOnes(rows, ds)))[d.id].sizeBytes == d.sizeBytes
  {
    var changed := ChangedOnes(rows, ds);
    var kept := Kept(rows, ds);
    var i :| 0 <= i < |ds| && ds[i] == d;
    assert d.id in kept;
    FilteredDistinct(rows, ds);
    KindMembers(rows, ds);
    ResetsEffect(kept, ResetsOf(changed), d.id);
    if IsChanged(rows, d) {
      var k :| 0 <= k < |changed| && changed[k] == d;
      assert ResetsOf(changed)[k].id == d.id;
    } else {
      forall k | 0 <= k < |changed| ensures ResetsOf(changed)[k].id != d.id {
        assert changed[k] in changed;
        var j :| 0 <= j < |ds| && ds[j] == changed[k];
        assert ds[j] != ds[i];
      }
    }
  }

  /** Syncing again against a table that phase one just wrote finds nothing
      new, nothing changed and nothing missing. */
  lemma ResyncIsQuiet(rows: map<Path, ComicRow>, ds: seq<Discovered>, seriesIds: map<String, nat>)
    requires DistinctIds(ds)
    ensures var after := SyncedRows(rows, ds, seriesIds);
            NewOnes(after, ds) == [] && ChangedOnes(after, ds) == [] && after.Keys - IdsOf(ds) == {}
  {
    var after := SyncedRows(rows, ds, seriesIds);
    SyncedRowsAgree(rows, ds, seriesIds);
    NothingToDo(after, ds);
  }

  lemma {:induction false} NothingToDo(rows: map<Path, ComicRow>, ds: seq<Discovered>)
    requires forall d :: d in ds ==> d.id in rows && rows[d.id].mtime == d.mtime && rows[d.id].sizeBytes == d.sizeBytes
    ensures NewOnes(rows, ds) == [] && ChangedOnes(rows, ds) == []
    decreases |ds|
  {
    if ds != [] {
      NothingToDo(rows, ds[..|ds| - 1]);
      assert ds[|ds| - 1] in ds;
    }
  }

  // ---------------------------------------------------------------------------
  // Phase one as the source runs it

  lemma ExtendFacts(rows: map<Path, ComicRow>, ds: seq<Discovered>, d: Discovered)
    ensures IdsOf(ds + [d]) == IdsOf(ds) + {d.id}
    ensures NewOnes(rows, ds + [d]) == NewOnes(rows, ds) + (if IsNew(rows, d) then [d] else [])
    ensures ChangedOnes(rows, ds + [d]) == ChangedOnes(rows, ds) + (if IsChanged(rows, d) then [d] else [])
    ensures Touched(rows, ds + [d]) == Touched(rows, ds) + (if IsNew(rows, d) || IsChanged(rows, d) then [d] else [])
  {
    assert (ds + [d])[..|ds|] == ds;
    forall id | id in IdsOf(ds) ensures id in IdsOf(ds + [d]) {
      var k :| 0 <= k < |ds| && ds[k].id == id;
      assert (ds + [d])[k] == ds[k];
    }
    forall id | id in IdsOf(ds + [d]) ensures id in IdsOf(ds) + {d.id} {
      var k :| 0 <= k < |ds + [d]| && (ds + [d])[k].id == id;
      if k < |ds| {
        assert ds[k] == (ds + [d])[k];
      }
    }
  }

  lemma SeedsExtend(ts: seq<Discovered>, d: Discovered)
    ensures Seeds(ts + [d]) == if d.series in Seeds(ts) then Seeds(ts) else Seeds(ts)[d.series := d]
    ensures SeedOrder(ts + [d]) == if d.series in Seeds(ts) then SeedOrder(ts) else SeedOrder(ts) + [d.series]
  {
    assert (ts + [d])[..|ts|] == ts;
  }

  /** The state the walk loop of `sync_library_task` builds. */
  datatype WalkState = WalkState(
    onDisk: set<Path>,
    newComics: seq<Discovered>,
    changed: seq<Discovered>,
    seeds: map<String, Discovered>,   // `series_map`
    order: seq<String>,               // its keys in insertion order
    fileCount: nat)

  /** The walk state that a list of archive records determines. */
  function StateOf(rows: map<Path, ComicRow>, ds: seq<Discovered>): WalkState {
    WalkState(IdsOf(ds), NewOnes(rows, ds), ChangedOnes(rows, ds),
              Seeds(Touched(rows, ds)), SeedOrder(Touched(rows, ds)), |ds|)
  }

  /** One archive file of the walk (lines 59-102). */
  function VisitArchive(st: WalkState, rows: map<Path, ComicRow>, d: Discovered): WalkState {
    var st1 := st.(onDisk := st.onDisk + {d.id}, fileCount := st.fileCount + 1);
    if !IsNew(rows, d) && !IsChanged(rows, d) then st1
    else
      var st2 := if IsNew(rows, d) then st1.(newComics := st1.newComics + [d]) else st1.(changed := st1.changed + [d]);
      if d.series in st2.seeds then st2
      else st2.(seeds := st2.seeds[d.series := d], order := st2.order + [d.series])
  }

  lemma VisitArchiveStep(rows: map<Path, ComicRow>, ds: seq<Discovered>, d: Discovered)
    ensures VisitArchive(StateOf(rows, ds), rows, d) == StateOf(rows, ds + [d])
  {
    ExtendFacts(rows, ds, d);
    if IsNew(rows, d) || IsChanged(rows, d) {
      VisitTouched(rows, ds, d);
    } else {
      VisitUntouched(rows, ds, d);
    }
  }

  lemma VisitTouched(rows: map<Path, ComicRow>, ds: seq<Discovered>, d: Discovered)
    requires IsNew(rows, d) || IsChanged(rows, d)
    requires Touched(rows, ds + [d]) == Touched(rows, ds) + [d]
    requires IdsOf(ds + [d]) == IdsOf(ds) + {d.id}
    requires NewOnes(rows, ds + [d]) == NewOnes(rows, ds) + (if IsNew(rows, d) then [d] else [])
    requires ChangedOnes(rows, ds + [d]) == ChangedOnes(rows, ds) + (if IsChanged(rows, d) then [d] else [])
    ensures VisitArchive(StateOf(rows, ds), rows, d) == StateOf(rows, ds + [d])
  {
    SeedsExtend(Touched(rows, ds), d);
  }

  lemma VisitUntouched(rows: map<Path, ComicRow>, ds: seq<Discovered>, d: Discovered)
    requires !IsNew(rows, d) && !IsChanged(rows, d)
    requires Touched(rows, ds + [d]) == Touched(rows, ds)
    requires IdsOf(ds + [d]) == IdsOf(ds) + {d.id}
    requires NewOnes(rows, ds + [d]) == NewOnes(rows, ds)
    requires ChangedOnes(rows, ds + [d]) == ChangedOnes(rows, ds)
    ensures VisitArchive(StateOf(rows, ds), rows, d) == StateOf(rows, ds + [d])
  {
  }

  lemma ArchivesInStep(root: Path, e: DirEntry, meta: Option<Metadata>, files: seq<FileStat>, j: nat)
    requires Under(root, e.dir) && j < |files|
    ensures ArchivesIn(root, e, meta, files[..j + 1]) ==
              ArchivesIn(root, e, meta, files[..j]) + (if IsCbrOrCbz(files[j].name) then [Discover(root, e, meta, files[j])] else [])
  {
    assert files[..j + 1][..j] == files[..j];
  }

  lemma ScannedStep(root: Path, walk: seq<DirEntry>, i: nat)
    requires i < |walk| && forall k :: 0 <= k < |walk| ==> Under(root, walk[k].dir)
    ensures Scanned(root, walk[..i + 1]) ==
              Scanned(root, walk[..i]) + ArchivesIn(root, walk[i], MetadataFor(CacheOf(walk[..i]), root, walk[i]), walk[i].files)
    ensures CacheOf(walk[..i + 1]) ==
              if walk[i].sidecar.Some? then CacheOf(walk[..i])[walk[i].dir := walk[i].sidecar.value] else CacheOf(walk[..i])
  {
    assert walk[..i + 1][..i] == walk[..i];
  }

  /** The keyword arguments of the phase-one progress update (lines 105-110). */
  function SyncMetrics(name: String, newCount: nat, changedCount: nat): seq<(String, Option<JobValue>)> {
    [("current_file", Some(VText(name))), ("phase", Some(VText("Phase 1: Syncing"))),
     ("new_comics", Some(VInt(newCount))), ("changed_comics", Some(VInt(changedCount)))]
  }

  /** The four metrics the phase-one update writes. */
  function SyncMap(name: String, newCount: nat, changedCount: nat): map<String, JobValue> {
    map["current_file" := VText(name), "phase" := VText("Phase 1: Syncing"),
        "new_comics" := VInt(newCount), "changed_comics" := VInt(changedCount)]
  }

  /** All four keyword arguments are whitelisted metrics, so all four are written. */
  lemma SyncMetricsWritten(name: String, newCount: nat, changedCount: nat)
    ensures Whitelisted(SyncMetrics(name, newCount, changedCount)) == SyncMap(name, newCount, changedCount)
  {
    SyncMetricsAllowed();
    WhitelistedFour("current_file", VText(name), "phase", VText("Phase 1: Syncing"),
                    "new_comics", VInt(newCount), "changed_comics", VInt(changedCount));
  }

  lemma SyncMetricsAllowed()
    ensures "current_file" in AllowedMetrics && "phase" in AllowedMetrics
    ensures "new_comics" in AllowedMetrics && "changed_comics" in AllowedMetrics
  {
    assert AllowedMetrics[0] == "current_file" && AllowedMetrics[1] == "phase";
    assert AllowedMetrics[2] == "new_comics" && AllowedMetrics[4] == "changed_comics";
  }

  /** The job row after one phase-one report (lines 105-111). */
  function SyncReport(row: JobRow, fileCount: nat, name: String, newCount: nat, changedCount: nat): JobRow {
    row.(totalComics := fileCount, processedComics := fileCount, errors := StoredErrors(JNull),
         metrics := row.metrics + SyncMap(name, newCount, changedCount))
  }

  /** One report sets processed and total to the file count and the errors
      column to NULL, and its four metrics name the file, the phase and the
      counts so far; every other column and metric keeps its value. */
  lemma SyncReportFacts(row: JobRow, fileCount: nat, name: String, newCount: nat, changedCount: nat)
    ensures var r := SyncReport(row, fileCount, name, newCount, changedCount);
            r.totalComics == fileCount && r.processedComics == fileCount && r.errors.None?
            && r.metrics.Keys == row.metrics.Keys + {"current_file", "phase", "new_comics", "changed_comics"}
            && r.metrics["current_file"] == VText(name) && r.metrics["phase"] == VText("Phase 1: Syncing")
            && r.metrics["new_comics"] == VInt(newCount) && r.metrics["changed_comics"] == VInt(changedCount)
    ensures var r := SyncReport(row, fileCount, name, newCount, changedCount);
            (forall k :: k in row.metrics && k !in SyncMap(name, newCount, changedCount) ==>
               r.metrics[k] == row.metrics[k])
            && r.(totalComics := row.totalComics, processedComics := row.processedComics,
                  errors := row.errors, metrics := row.metrics) == row
  {
  }

  /** The job row after the archives `ds` of the walk so far: the archive
      that brings the file count to a multiple of 50 is reported; files that
      are not archives, and the archives between, write nothing. */
  ghost function Reported(row: JobRow, rows: map<Path, ComicRow>, ds: seq<Discovered>): JobRow
    decreases |ds|
  {
    if ds == [] then row
    else
      var r := Reported(row, rows, ds[..|ds| - 1]);
      if |ds| % 50 == 0 then
        var st := StateOf(rows, ds);
        SyncReport(r, |ds|, ds[|ds| - 1].filename, |st.newComics|, |st.changed|)
      else r
  }

  /** The job reports the last multiple of 50 archives seen, naming the
      archive that reached it; before the 50th archive it is untouched. */
  /** Counting one archive less does not change the last multiple of 50
      reached, unless the count itself is one. */
  lemma BelowMultiple(k: nat)
    requires k % 50 != 0
    ensures k > 0
    ensures k >= 50 ==> k - 1 >= 50 && (k - 1) - (k - 1) % 50 == k - k % 50
  {
    var q := k / 50;
    assert k == 50 * q + k % 50;
    assert k - 1 == 50 * q + (k % 50 - 1);
  }

  lemma AtMultiple(k: nat)
    requires k > 0 && k % 50 == 0
    ensures k >= 50 && k - k % 50 == k
  {
  }

  /** Before the 50th archive the job row is untouched. */
  lemma {:induction false} ReportedBefore50(row: JobRow, rows: map<Path, ComicRow>, ds: seq<Discovered>)
    requires |ds| < 50
    ensures Reported(row, rows, ds) == row
    decreases |ds|
  {
    if ds != [] {
      BelowMultiple(|ds|);
      ReportedBefore50(row, rows, ds[..|ds| - 1]);
    }
  }

  /** The job row reports `n` archives, the last of them `name`, in phase one. */
  predicate ReportsCount(r: JobRow, n: nat, name: String) {
    r.totalComics == n && r.processedComics == n
    && "current_file" in r.metrics && r.metrics["current_file"] == VText(name)
    && "phase" in r.metrics && r.metrics["phase"] == VText("Phase 1: Syncing")
  }

  /** From the 50th archive on, the job reports the last multiple of 50
      archives seen and names the archive that reached it. */
  lemma {:induction false} ReportedIsLastMultiple(row: JobRow, rows: map<Path, ComicRow>, ds: seq<Discovered>)
    requires |ds| >= 50
    ensures ReportsCount(Reported(row, rows, ds), |ds| - |ds| % 50, ds[|ds| - |ds| % 50 - 1].filename)
    decreases |ds|
  {
    var init := ds[..|ds| - 1];
    if |ds| % 50 == 0 {
      AtMultiple(|ds|);
      ReportedAtMultiple(row, rows, ds);
    } else {
      BelowMultiple(|ds|);
      ReportedIsLastMultiple(row, rows, init);
      assert Reported(row, rows, ds) == Reported(row, rows, init);
      assert init[|ds| - |ds| % 50 - 1] == ds[|ds| - |ds| % 50 - 1];
    }
  }

  lemma ReportedAtMultiple(row: JobRow, rows: map<Path, ComicRow>, ds: seq<Discovered>)
    requires ds != [] && |ds| % 50 == 0
    ensures ReportsCount(Reported(row, rows, ds), |ds|, ds[|ds| - 1].filename)
  {
    var st := StateOf(rows, ds);
    SyncReportFacts(Reported(row, rows, ds[..|ds| - 1]), |ds|, ds[|ds| - 1].filename, |st.newComics|, |st.changed|);
    assert Reported(row, rows, ds) ==
             SyncReport(Reported(row, rows, ds[..|ds| - 1]), |ds|, ds[|ds| - 1].filename, |st.newComics|, |st.changed|);
  }

  /** The progress update every 50 archives (lines 104-112): when there is a
      job and the count of archives seen is a multiple of 50, the job's
      counters and metrics report it; otherwise the job table is left as it is. */
  method ReportSyncProgress(jobs: ScanJobsTable, jobId: Option<nat>, fileCount: nat, name: String,
                            newCount: nat, changedCount: nat)
    requires jobs.Valid()
    modifies jobs
    ensures jobs.Valid()
    ensures jobs.rows == if jobId.Some? && fileCount % 50 == 0 && jobId.value in old(jobs.rows)
                         then old(jobs.rows)[jobId.value := SyncReport(old(jobs.rows)[jobId.value], fileCount, name, newCount, changedCount)]
                         else old(jobs.rows)
  {
    if jobId.Some? && fileCount % 50 == 0 {
      SyncMetricsWritten(name, newCount, changedCount);
      jobs.UpdateScanProgress(jobId.value, fileCount, JNull, SyncMetrics(name, newCount, changedCount));
      jobs.SetTotal(jobId.value, fileCount, false);
    }
  }

  lemma DirectoryStep(root: Path, e: DirEntry, meta: Option<Metadata>, rows: map<Path, ComicRow>,
                      before: seq<Discovered>, j: nat)
    requires Under(root, e.dir) && j < |e.files|
    ensures StateOf(rows, before + ArchivesIn(root, e, meta, e.files[..j + 1])) ==
              if IsCbrOrCbz(e.files[j].name)
              then VisitArchive(StateOf(rows, before + ArchivesIn(root, e, meta, e.files[..j])), rows,
                                Discover(root, e, meta, e.files[j]))
              else StateOf(rows, before + ArchivesIn(root, e, meta, e.files[..j]))
  {
    ArchivesInStep(root, e, meta, e.files, j);
    var cur := before + ArchivesIn(root, e, meta, e.files[..j]);
    if IsCbrOrCbz(e.files[j].name) {
      var d := Discover(root, e, meta, e.files[j]);
      VisitArchiveStep(rows, cur, d);
      assert before + ArchivesIn(root, e, meta, e.files[..j + 1]) == cur + [d];
    } else {
      assert before + ArchivesIn(root, e, meta, e.files[..j + 1]) == cur;
    }
  }

  lemma ReportedStep(row: JobRow, rows: map<Path, ComicRow>, ds: seq<Discovered>, d: Discovered)
    ensures Reported(row, rows, ds + [d]) ==
              if (|ds| + 1) % 50 == 0
              then SyncReport(Reported(row, rows, ds), |ds| + 1, d.filename,
                              |StateOf(rows, ds + [d]).newComics|, |StateOf(rows, ds + [d]).changed|)
              else Reported(row, rows, ds)
  {
    assert (ds + [d])[..|ds|] == ds;
  }

  /** The job table during the walk: it has the rows it started with, only
      the job's own row changes, and that row is `want`. */
  ghost predicate JobFollows(now: map<nat, JobRow>, start: map<nat, JobRow>, jobId: Option<nat>, want: JobRow) {
    now.Keys == start.Keys
    && (forall k :: k in start && Some(k) != jobId ==> now[k] == start[k])
    && (jobId.Some? && jobId.value in now ==> now[jobId.value] == want)
  }

  /** The report after one more archive keeps the job table following the walk. */
  lemma ReportFollows(now: map<nat, JobRow>, next: map<nat, JobRow>, start: map<nat, JobRow>, jobId: Option<nat>,
                      rows: map<Path, ComicRow>, ds: seq<Discovered>, d: Discovered, row0: JobRow, st: WalkState)
    requires JobFollows(now, start, jobId, Reported(row0, rows, ds))
    requires st == StateOf(rows, ds + [d])
    requires next == if jobId.Some? && st.fileCount % 50 == 0 && jobId.value in now
                     then now[jobId.value := SyncReport(now[jobId.value], st.fileCount, d.filename,
                                                        |st.newComics|, |st.changed|)]
                     else now
    ensures JobFollows(next, start, jobId, Reported(row0, rows, ds + [d]))
  {
    ReportedStep(row0, rows, ds, d);
  }

  /** One file of a directory (lines 59-112): an archive is visited and, at
      every 50th archive, reported; any other file is passed over. */
  method VisitFile(root: Path, e: DirEntry, meta: Option<Metadata>, rows: map<Path, ComicRow>,
                   st0: WalkState, ghost before: seq<Discovered>, j: nat, jobs: ScanJobsTable, jobId: Option<nat>,
                   ghost start: map<nat, JobRow>, ghost row0: JobRow)
    returns (st: WalkState)
    requires Under(root, e.dir) && j < |e.files|
    requires st0 == StateOf(rows, before + ArchivesIn(root, e, meta, e.files[..j]))
    requires jobs.Valid() && JobFollows(jobs.rows, start, jobId, Reported(row0, rows, before + ArchivesIn(root, e, meta, e.files[..j])))
    modifies jobs
    ensures st == StateOf(rows, before + ArchivesIn(root, e, meta, e.files[..j + 1]))
    ensures jobs.Valid()
    ensures JobFollows(jobs.rows, start, jobId, Reported(row0, rows, before + ArchivesIn(root, e, meta, e.files[..j + 1])))
  {
    var f := e.files[j];
    ghost var cur := before + ArchivesIn(root, e, meta, e.files[..j]);
    ArchivesInStep(root, e, meta, e.files, j);
    st := st0;
    if IsCbrOrCbz(f.name) {
      var d := Discover(root, e, meta, f);
      assert before + ArchivesIn(root, e, meta, e.files[..j + 1]) == cur + [d];
      VisitArchiveStep(rows, cur, d);
      st := VisitArchive(st, rows, d);
      assert st == StateOf(rows, cur + [d]) && f.name == d.filename;
      ghost var now := jobs.rows;
      ReportSyncProgress(jobs, jobId, st.fileCount, f.name, |st.newComics|, |st.changed|);
      ReportFollows(now, jobs.rows, start, jobId, rows, cur, d, row0, st);
    } else {
      assert before + ArchivesIn(root, e, meta, e.files[..j + 1]) == cur;
    }
  }

  /** The loop over one directory's files (lines 58-112). */
  method WalkDirectory(root: Path, e: DirEntry, meta: Option<Metadata>, rows: map<Path, ComicRow>,
                       st0: WalkState, ghost before: seq<Discovered>, jobs: ScanJobsTable, jobId: Option<nat>,
                       ghost start: map<nat, JobRow>, ghost row0: JobRow)
    returns (st: WalkState)
    requires Under(root, e.dir) && st0 == StateOf(rows, before)
    requires jobs.Valid() && JobFollows(jobs.rows, start, jobId, Reported(row0, rows, before))
    modifies jobs
    ensures st == StateOf(rows, before + ArchivesIn(root, e, meta, e.files))
    ensures jobs.Valid() && JobFollows(jobs.rows, start, jobId, Reported(row0, rows, before + ArchivesIn(root, e, meta, e.files)))
  {
    st := st0;
    assert before + ArchivesIn(root, e, meta, e.files[..0]) == before;
    var j := 0;
    while j < |e.files|
      invariant 0 <= j <= |e.files|
      invariant st == StateOf(rows, before + ArchivesIn(root, e, meta, e.files[..j]))
      invariant jobs.Valid()
      invariant JobFollows(jobs.rows, start, jobId, Reported(row0, rows, before + ArchivesIn(root, e, meta, e.files[..j])))
    {
      st := VisitFile(root, e, meta, rows, st, before, j, jobs, jobId, start, row0);
      j := j + 1;
    }
    assert e.files[..|e.files|] == e.files;
  }

  /** The `os.walk` loop of `sync_library_task` (lines 39-112): fills the
      on-disk ids, the new and changed lists and `series_map`, consulting and
      filling the metadata cache on the way, and reports every 50th archive. */
  method WalkLibrary(root: Path, walk: seq<DirEntry>, rows: map<Path, ComicRow>,
                     jobs: ScanJobsTable, jobId: Option<nat>) returns (st: WalkState)
    requires forall i :: 0 <= i < |walk| ==> Under(root, walk[i].dir)
    requires jobs.Valid()
    modifies jobs
    ensures st == StateOf(rows, Scanned(root, walk))
    ensures jobs.Valid() && jobs.rows.Keys == old(jobs.rows).Keys
    ensures forall j :: j in old(jobs.rows) && Some(j) != jobId ==> jobs.rows[j] == old(jobs.rows)[j]
    ensures jobId.Some? && jobId.value in jobs.rows ==>
              jobs.rows[jobId.value] == Reported(old(jobs.rows)[jobId.value], rows, Scanned(root, walk))
  {
    ghost var start := jobs.rows;
    ghost var row0 := if jobId.Some? && jobId.value in jobs.rows then jobs.rows[jobId.value]
                      else JobRow(0, None, Running, [], 0, 0, map[], None, false);
    var cache: map<Path, Metadata> := map[];
    st := StateOf(rows, []);
    var i := 0;
    while i < |walk|
      invariant 0 <= i <= |walk|
      invariant cache == CacheOf(walk[..i])
      invariant st == StateOf(rows, Scanned(root, walk[..i]))
      invariant jobs.Valid() && JobFollows(jobs.rows, start, jobId, Reported(row0, rows, Scanned(root, walk[..i])))
    {
      var e := walk[i];
      ScannedStep(root, walk, i);
      var meta: Option<Metadata>;
      if e.sidecar.Some? {
        meta := e.sidecar;
        cache := cache[e.dir := e.sidecar.value];
      } else {
        meta := InheritMetadata(cache, root, e.dir);
      }
      st := WalkDirectory(root, e, meta, rows, st, Scanned(root, walk[..i]), jobs, jobId, start, row0);
      i := i + 1;
    }
    assert walk[..|walk|] == walk;
  }

  /** Every series id of the table, by name. */
  function SeriesIds(rows: map<String, SeriesRow>): map<String, nat> {
    map n | n in rows :: rows[n].id
  }

  /** The cells `create_or_update_series` leaves for a name of `series_map`
      (lines 137-145): its first record's metadata, category, subcategory and cover. */
  function UpsertedCells(before: map<String, SeriesRow>, name: String, d: Discovered): map<String, Cell> {
    var incoming := Incoming(d.metadata.GetOr(map[]), Some(d.category), d.subcategory, Some(d.id));
    if name in before then Coalesce(before[name].cells, incoming) else incoming
  }

  /** After upserting the names in `done`, in some order, from `before`; `target`
      holds the cells each upserted name ends with. */
  ghost predicate UpsertedSoFar(before: map<String, SeriesRow>, rows: map<String, SeriesRow>,
                                target: map<String, map<String, Cell>>, done: set<String>)
    requires done <= target.Keys
  {
    rows.Keys == before.Keys + done
    && (forall n :: n in before && n !in done ==> rows[n] == before[n])
    && (forall n :: n in done ==> rows[n].cells == target[n])
    && (forall n :: n in done && n in before ==> rows[n].id == before[n].id)
  }

  /** The upsert loop's state after the first `k` names of `order`: the table
      holds their target cells, the old rows elsewhere, and `sids` their ids. */
  ghost predicate UpsertInv(before: map<String, SeriesRow>, rows: map<String, SeriesRow>,
                            target: map<String, map<String, Cell>>, order: seq<String>, k: nat,
                            sids: map<String, nat>)
  {
    k <= |order| && sids.Keys <= target.Keys
    && (forall i :: 0 <= i < k ==> order[i] in sids)
    && (forall n :: n in sids ==> n in order)
    && UpsertedSoFar(before, rows, target, sids.Keys)
    && (forall n :: n in sids ==> sids[n] == rows[n].id)
  }

  /** Writing `name`'s target cells, and nothing else, extends what was upserted by `name`. */
  lemma UpsertedStep(before: map<String, SeriesRow>, rows: map<String, SeriesRow>, rows': map<String, SeriesRow>,
                     target: map<String, map<String, Cell>>, done: set<String>, name: String)
    requires done <= target.Keys && name in target
    requires UpsertedSoFar(before, rows, target, done)
    requires rows'.Keys == rows.Keys + {name}
    requires forall n :: n in rows && n != name ==> rows'[n] == rows[n]
    requires rows'[name].cells == target[name]
    requires name in before ==> rows'[name].id == before[name].id
    ensures UpsertedSoFar(before, rows', target, done + {name})
  {
  }

  /** The loop state after one more `create_or_update_series` call, whose effect on the
      table the requires clauses describe: a repeated name gets its cells again
      (the update is idempotent), keeping its id. */
  lemma UpsertInvStep(before: map<String, SeriesRow>, rows: map<String, SeriesRow>, rows': map<String, SeriesRow>,
                      target: map<String, map<String, Cell>>, order: seq<String>, k: nat,
                      sids: map<String, nat>, incoming: map<String, Cell>, id: nat)
    requires k < |order| && order[k] in target
    requires target[order[k]] == if order[k] in before then Coalesce(before[order[k]].cells, incoming) else incoming
    requires UpsertInv(before, rows, target, order, k, sids)
    requires rows'.Keys == rows.Keys + {order[k]}
    requires order[k] in rows ==> id == rows[order[k]].id && rows'[order[k]] == SeriesRow(id, Coalesce(rows[order[k]].cells, incoming))
    requires order[k] !in rows ==> rows'[order[k]] == SeriesRow(id, incoming)
    requires forall n :: n in rows && n != order[k] ==> rows'[n] == rows[n]
    ensures UpsertInv(before, rows', target, order, k + 1, sids[order[k] := id])
  {
    var name := order[k];
    assert sids[name := id].Keys == sids.Keys + {name};
    UpsertedName(before, rows, target, sids.Keys, name, incoming, rows'[name]);
    UpsertedStep(before, rows, rows', target, sids.Keys, name);
    UpsertedIds(rows, rows', sids, name, id);
  }

  /** The ids recorded in `series_id_map` stay those of the table's rows. */
  lemma UpsertedIds(rows: map<String, SeriesRow>, rows': map<String, SeriesRow>, sids: map<String, nat>,
                    name: String, id: nat)
    requires forall n :: n in sids ==> n in rows && sids[n] == rows[n].id
    requires name in rows' && rows'[name].id == id
    requires forall n :: n in rows && n != name ==> n in rows' && rows'[n] == rows[n]
    ensures forall n :: n in sids[name := id] ==> sids[name := id][n] == rows'[n].id
  {
  }

  /** The row `name` gets from one more upsert holds its target cells, whether or
      not it was upserted before, and keeps the id it had. */
  lemma UpsertedName(before: map<String, SeriesRow>, rows: map<String, SeriesRow>,
                     target: map<String, map<String, Cell>>, done: set<String>, name: String,
                     incoming: map<String, Cell>, row: SeriesRow)
    requires done <= target.Keys && name in target && UpsertedSoFar(before, rows, target, done)
    requires target[name] == if name in before then Coalesce(before[name].cells, incoming) else incoming
    requires name in rows ==> row == SeriesRow(rows[name].id, Coalesce(rows[name].cells, incoming))
    requires name !in rows ==> row.cells == incoming
    ensures row.cells == target[name]
    ensures name in before ==> row.id == before[name].id
  {
    if name in done {
      if name in before {
        CoalesceIdempotent(before[name].cells, incoming);
      } else {
        assert Coalesce(incoming, incoming) == incoming;
      }
    }
  }

  /** One `create_or_update_series` call of the upsert loop. */
  method UpsertOne(series: SeriesTable, seeds: map<String, Discovered>, order: seq<String>, k: nat,
                   sids: map<String, nat>, ghost before: map<String, SeriesRow>,
                   ghost target: map<String, map<String, Cell>>) returns (sids': map<String, nat>)
    requires series.Valid() && k < |order| && order[k] in seeds && order[k] in target
    requires target[order[k]] == UpsertedCells(before, order[k], seeds[order[k]])
    requires UpsertInv(before, series.rows, target, order, k, sids)
    modifies series
    ensures series.Valid() && UpsertInv(before, series.rows, target, order, k + 1, sids')
  {
    var name := order[k];
    var d := seeds[name];
    ghost var incoming := Incoming(d.metadata.GetOr(map[]), Some(d.category), d.subcategory, Some(d.id));
    ghost var rows := series.rows;
    var id := series.CreateOrUpdate(name, d.metadata, Some(d.category), d.subcategory, Some(d.id));
    UpsertInvStep(before, rows, series.rows, target, order, k, sids, incoming, id);
    sids' := sids[name := id];
  }

  /** A set holding every element of a list that enumerates `keys` is `keys`. */
  lemma OrderCovers(order: seq<String>, keys: set<String>, done: set<String>)
    requires forall n :: n in order <==> n in keys
    requires forall i :: 0 <= i < |order| ==> order[i] in done
    requires forall n :: n in done ==> n in order
    ensures done == keys
  {
    forall n | n in keys ensures n in done {
      var i :| 0 <= i < |order| && order[i] == n;
    }
  }

  /** The series upsert loop (lines 136-147); returns `series_id_map`. */
  method UpsertSeries(series: SeriesTable, seeds: map<String, Discovered>, order: seq<String>,
                      ghost target: map<String, map<String, Cell>>)
    returns (sids: map<String, nat>)
    requires series.Valid()
    requires forall n :: n in order <==> n in seeds
    requires forall n :: n in seeds ==> n in target && target[n] == UpsertedCells(series.rows, n, seeds[n])
    modifies series
    ensures series.Valid() && UpsertedSoFar(old(series.rows), series.rows, target, seeds.Keys)
    ensures sids.Keys == seeds.Keys && forall n :: n in sids ==> sids[n] == series.rows[n].id
  {
    sids := map[];
    var k := 0;
    while k < |order|
      invariant 0 <= k <= |order| && series.Valid()
      invariant UpsertInv(old(series.rows), series.rows, target, order, k, sids)
    {
      assert order[k] in order;
      sids := UpsertOne(series, seeds, order, k, sids, old(series.rows), target);
      k := k + 1;
    }
    OrderCovers(order, seeds.Keys, sids.Keys);
  }

  /** One more insert: the next new comic's id is not yet in the table. */
  lemma InsertAllStep(rows: map<Path, ComicRow>, news: seq<Discovered>, sids: map<String, nat>, k: nat)
    requires DistinctIds(news) && (forall d :: d in news ==> d.id !in rows) && k < |news|
    ensures news[k].id !in InsertAll(rows, news[..k], sids)
    ensures InsertAll(rows, news[..k + 1], sids) == InsertAll(rows, news[..k], sids)[news[k].id := NewRow(news[k], sids)]
  {
    assert news[k].id !in IdsOf(news[..k]) by {
      forall a | 0 <= a < k ensures news[..k][a].id != news[k].id { assert news[a].id != news[k].id; }
    }
    assert news[k] in news;
    assert news[..k + 1][..k] == news[..k];
  }

  /** The insert of the new comics (lines 149-171), one row after another. */
  method InsertNewComics(comics: ComicsTable, news: seq<Discovered>, sids: map<String, nat>)
    requires DistinctIds(news) && forall d :: d in news ==> d.id !in comics.rows
    modifies comics
    ensures comics.rows == InsertAll(old(comics.rows), news, sids)
  {
    var k := 0;
    while k < |news|
      invariant 0 <= k <= |news|
      invariant comics.rows == InsertAll(old(comics.rows), news[..k], sids)
    {
      var d := news[k];
      InsertAllStep(old(comics.rows), news, sids, k);
      comics.Insert(d.id, NewRow(d, sids));
      k := k + 1;
    }
    assert news[..|news|] == news;
  }

  /** The ids of a set, listed (`list(missing_ids)`). */
  method Enumerate(s: set<Path>) returns (xs: seq<Path>)
    ensures forall x :: x in xs <==> x in s
  {
    xs := [];
    var rest := s;
    while rest != {}
      invariant rest <= s
      invariant forall x :: x in s <==> x in xs || x in rest
      decreases |rest|
    {
      var x :| x in rest;
      xs := xs + [x];
      rest := rest - {x};
    }
  }

  /** Inserting with two id maps that agree on the inserted comics' series gives the same table. */
  lemma {:induction false} InsertAllCongruent(rows: map<Path, ComicRow>, ns: seq<Discovered>,
                                              s1: map<String, nat>, s2: map<String, nat>)
    requires forall d :: d in ns ==> d.series in s1 && d.series in s2 && s1[d.series] == s2[d.series]
    ensures InsertAll(rows, ns, s1) == InsertAll(rows, ns, s2)
    decreases |ns|
  {
    if ns != [] {
      assert ns[|ns| - 1] in ns;
      InsertAllCongruent(rows, ns[..|ns| - 1], s1, s2);
    }
  }

  /** A target map with the cells `UpsertedCells` gives every name of `seeds`. */
  lemma UpsertTargetOf(before: map<String, SeriesRow>, seeds: map<String, Discovered>)
    returns (target: map<String, map<String, Cell>>)
    ensures forall n :: n in seeds ==> n in target && target[n] == UpsertedCells(before, n, seeds[n])
  {
    target := map n | n in seeds :: UpsertedCells(before, n, seeds[n]);
  }

  /** Deleting the listed ids keeps exactly the rows whose id is on disk. */
  lemma DeleteKeepsOnDisk(rows: map<Path, ComicRow>, ids: seq<Path>, onDisk: set<Path>)
    requires forall x :: x in ids <==> x in rows && x !in onDisk
    ensures (map id | id in rows && id !in ids :: rows[id]) == (map id | id in rows && id in onDisk :: rows[id])
  {
    var a := map id | id in rows && id !in ids :: rows[id];
    var b := map id | id in rows && id in onDisk :: rows[id];
    assert a.Keys == b.Keys;
    forall id | id in a ensures a[id] == b[id] { }
  }

  /** Line 124: the progress update that records how many comics were deleted;
      like every `update_scan_progress`, it also sets the processed count to the
      file count and clears the errors. */
  method ReportDeleted(jobs: ScanJobsTable, jobId: nat, fileCount: nat, deleted: nat)
    requires jobs.Valid()
    modifies jobs
    ensures jobs.Valid()
    ensures jobId !in old(jobs.rows) ==> jobs.rows == old(jobs.rows)
    ensures jobId in old(jobs.rows) ==>
              jobs.rows == old(jobs.rows)[jobId := old(jobs.rows)[jobId].(
                processedComics := fileCount, errors := None,
                metrics := old(jobs.rows)[jobId].metrics["deleted_comics" := VInt(deleted)])]
  {
    var kwargs := [("deleted_comics", Some(VInt(deleted)))];
    assert Whitelisted(kwargs) == map["deleted_comics" := VInt(deleted)] by {
      assert kwargs[..0] == [];
    }
    jobs.UpdateScanProgress(jobId, fileCount, JNull, kwargs);
    if jobId in old(jobs.rows) {
      ghost var m := old(jobs.rows)[jobId].metrics;
      assert m + map["deleted_comics" := VInt(deleted)] == m["deleted_comics" := VInt(deleted)];
    }
  }

  /** Lines 118-123: deletes every comic whose id was not seen on disk. */
  method PurgeMissing(comics: ComicsTable, onDisk: set<Path>) returns (deleted: nat)
    modifies comics
    ensures comics.rows == map id | id in old(comics.rows) && id in onDisk :: old(comics.rows)[id]
    ensures deleted == |old(comics.rows).Keys - onDisk|
  {
    var missing := comics.rows.Keys - onDisk;
    deleted := |missing|;
    if missing == {} {
      forall id | id in comics.rows ensures id in onDisk {
        assert id !in missing;
      }
      assert comics.rows == map id | id in comics.rows && id in onDisk :: comics.rows[id];
    } else {
      var ids := Enumerate(missing);
      DeleteKeepsOnDisk(comics.rows, ids, onDisk);
      comics.DeleteByIds(ids);
    }
  }

  /** Lines 114-124: the final total, then the delete of every comic no longer on disk. */
  method DeleteMissing(comics: ComicsTable, jobs: ScanJobsTable, jobId: Option<nat>,
                       onDisk: set<Path>, fileCount: nat) returns (deleted: nat)
    requires jobs.Valid()
    modifies comics, jobs
    ensures comics.rows == map id | id in old(comics.rows) && id in onDisk :: old(comics.rows)[id]
    ensures deleted == |old(comics.rows).Keys - onDisk|
    ensures jobs.Valid() && jobs.rows.Keys == old(jobs.rows).Keys
    ensures forall j :: j in old(jobs.rows) && Some(j) != jobId ==> jobs.rows[j] == old(jobs.rows)[j]
    ensures jobId.Some? && jobId.value in old(jobs.rows) ==>
              jobs.rows[jobId.value] == if deleted > 0
                                        then old(jobs.rows)[jobId.value].(
                                               totalComics := fileCount, processedComics := fileCount, errors := None,
                                               metrics := old(jobs.rows)[jobId.value].metrics["deleted_comics" := VInt(deleted)])
                                        else old(jobs.rows)[jobId.value].(totalComics := fileCount)
  {
    if jobId.Some? {
      jobs.SetTotal(jobId.value, fileCount, false);
    }
    deleted := PurgeMissing(comics, onDisk);
    if jobId.Some? && deleted > 0 {
      ReportDeleted(jobs, jobId.value, fileCount, deleted);
    }
  }

  /** Lines 135-171: upsert the series of every touched comic, then insert the new comics
      with their `series_id`. */
  method AddNewComics(comics: ComicsTable, series: SeriesTable, seeds: map<String, Discovered>,
                      order: seq<String>, news: seq<Discovered>, ghost target: map<String, map<String, Cell>>)
    requires series.Valid()
    requires forall n :: n in order <==> n in seeds
    requires forall n :: n in seeds ==> n in target && target[n] == UpsertedCells(series.rows, n, seeds[n])
    requires forall d :: d in news ==> d.series in seeds
    requires DistinctIds(news) && forall d :: d in news ==> d.id !in comics.rows
    modifies comics, series
    ensures series.Valid() && UpsertedSoFar(old(series.rows), series.rows, target, seeds.Keys)
    ensures comics.rows == InsertAll(old(comics.rows), news, SeriesIds(series.rows))
  {
    var sids := UpsertSeries(series, seeds, order, target);
    InsertAllCongruent(comics.rows, news, sids, SeriesIds(series.rows));
    InsertNewComics(comics, news, sids);
  }

  /** The series table after the upsert loop: every name of `series_map` holds
      its upserted cells, and every other row is as it was. */
  ghost predicate SeriesUpserted(before: map<String, SeriesRow>, rows: map<String, SeriesRow>,
                                 seeds: map<String, Discovered>)
  {
    rows.Keys == before.Keys + seeds.Keys
    && (forall n :: n in before && n !in seeds ==> rows[n] == before[n])
    && (forall n :: n in seeds ==> rows[n].cells == UpsertedCells(before, n, seeds[n]))
  }

  lemma UpsertedMeaning(before: map<String, SeriesRow>, rows: map<String, SeriesRow>,
                        target: map<String, map<String, Cell>>, seeds: map<String, Discovered>)
    requires forall n :: n in seeds ==> n in target && target[n] == UpsertedCells(before, n, seeds[n])
    requires UpsertedSoFar(before, rows, target, seeds.Keys)
    ensures SeriesUpserted(before, rows, seeds)
  {
  }

  /** What the walk guarantees about the lists the write-back uses. */
  lemma SyncFacts(root: Path, walk: seq<DirEntry>, rows: map<Path, ComicRow>)
    requires WellFormedWalk(root, walk)
    ensures var ds := Scanned(root, walk);
            DistinctIds(NewOnes(rows, ds))
            && (forall d :: d in NewOnes(rows, ds) ==> d.id !in rows && d.series in Seeds(Touched(rows, ds)))
            && (forall n :: n in SeedOrder(Touched(rows, ds)) <==> n in Seeds(Touched(rows, ds)))
  {
    var ds := Scanned(root, walk);
    ScannedDistinct(root, walk);
    FilteredDistinct(rows, ds);
    KindMembers(rows, ds);
    SeedOrderIsKeys(Touched(rows, ds));
    forall d | d in NewOnes(rows, ds) ensures d.series in Seeds(Touched(rows, ds)) {
      var j :| 0 <= j < |Touched(rows, ds)| && Touched(rows, ds)[j] == d;
      SeedsMembers(Touched(rows, ds), d.series);
    }
  }

  /** Lines 126-175: the resets of the changed comics, the series upserts and the
      inserts of the new comics, then the tag cache invalidation. */
  method WriteBack(comics: ComicsTable, series: SeriesTable, tags: TagCache, st: WalkState)
    requires series.Valid()
    requires DistinctIds(st.newComics)
    requires forall d :: d in st.newComics ==> d.id !in comics.rows && d.series in st.seeds
    requires forall n :: n in st.order <==> n in st.seeds
    modifies comics, series, tags
    ensures comics.rows == InsertAll(ApplyResets(old(comics.rows), ResetsOf(st.changed)),
                                     st.newComics, SeriesIds(series.rows))
    ensures series.Valid()
    ensures st.newComics == [] ==> series.rows == old(series.rows)
    ensures st.newComics != [] ==> SeriesUpserted(old(series.rows), series.rows, st.seeds)
    ensures tags.systemTags.None? && tags.containment.None? && tags.lookup.None?
  {
    if st.changed != [] {
      comics.ResetChanged(ResetsOf(st.changed));
    } else {
      assert ResetsOf(st.changed) == [];
    }
    ghost var reset := comics.rows;
    if st.newComics != [] {
      var target := UpsertTargetOf(series.rows, st.seeds);
      AddNewComics(comics, series, st.seeds, st.order, st.newComics, target);
      UpsertedMeaning(old(series.rows), series.rows, target, st.seeds);
    }
    assert comics.rows == InsertAll(reset, st.newComics, SeriesIds(series.rows));
    tags.Invalidate();
  }

  /** Lines 114-178: the writes that follow the walk, from its final state. */
  method ApplySync(comics: ComicsTable, series: SeriesTable, jobs: ScanJobsTable, tags: TagCache,
                   jobId: Option<nat>, st: WalkState) returns (touched: nat, deleted: nat)
    requires series.Valid() && jobs.Valid()
    requires DistinctIds(st.newComics)
    requires forall d :: d in st.newComics ==> d.id !in comics.rows && d.series in st.seeds
    requires forall n :: n in st.order <==> n in st.seeds
    modifies comics, series, jobs, tags
    ensures comics.rows == InsertAll(ApplyResets(map id | id in old(comics.rows) && id in st.onDisk :: old(comics.rows)[id],
                                                 ResetsOf(st.changed)),
                                     st.newComics, SeriesIds(series.rows))
    ensures touched == |st.newComics| + |st.changed|
    ensures deleted == |old(comics.rows).Keys - st.onDisk|
    ensures series.Valid()
    ensures st.newComics == [] ==> series.rows == old(series.rows)
    ensures st.newComics != [] ==> SeriesUpserted(old(series.rows), series.rows, st.seeds)
    ensures jobs.Valid() && jobs.rows.Keys == old(jobs.rows).Keys
    ensures forall j :: j in old(jobs.rows) && Some(j) != jobId ==> jobs.rows[j] == old(jobs.rows)[j]
    ensures jobId.Some? && jobId.value in jobs.rows ==>
              jobs.rows[jobId.value].totalComics == st.fileCount
              && (deleted > 0 ==> "deleted_comics" in jobs.rows[jobId.value].metrics
                                  && jobs.rows[jobId.value].metrics["deleted_comics"] == VInt(deleted))
    ensures tags.systemTags.None? && tags.containment.None? && tags.lookup.None?
  {
    deleted := DeleteMissing(comics, jobs, jobId, st.onDisk, st.fileCount);
    WriteBack(comics, series, tags, st);
    touched := |st.newComics| + |st.changed|;
  }

  /** `sync_library_task`: returns the number of new plus changed comics and
      the number deleted. */
  method SyncLibrary(root: Path, walk: seq<DirEntry>, comics: ComicsTable, series: SeriesTable,
                     jobs: ScanJobsTable, tags: TagCache, jobId: Option<nat>)
    returns (touched: nat, deleted: nat)
    requires WellFormedWalk(root, walk)
    requires series.Valid() && jobs.Valid()
    modifies comics, series, jobs, tags
    ensures comics.rows == SyncedRows(old(comics.rows), Scanned(root, walk), SeriesIds(series.rows))
    ensures touched == |NewOnes(old(comics.rows), Scanned(root, walk))| + |ChangedOnes(old(comics.rows), Scanned(root, walk))|
    ensures deleted == |old(comics.rows).Keys - IdsOf(Scanned(root, walk))|
    ensures series.Valid()
    ensures NewOnes(old(comics.rows), Scanned(root, walk)) == [] ==> series.rows == old(series.rows)
    ensures NewOnes(old(comics.rows), Scanned(root, walk)) != [] ==>
              SeriesUpserted(old(series.rows), series.rows, Seeds(Touched(old(comics.rows), Scanned(root, walk))))
    ensures jobs.Valid() && jobs.rows.Keys == old(jobs.rows).Keys
    ensures forall j :: j in old(jobs.rows) && Some(j) != jobId ==> jobs.rows[j] == old(jobs.rows)[j]
    ensures jobId.Some? && jobId.value in jobs.rows ==>
              jobs.rows[jobId.value].totalComics == |Scanned(root, walk)|
              && (deleted > 0 ==> "deleted_comics" in jobs.rows[jobId.value].metrics
                                  && jobs.rows[jobId.value].metrics["deleted_comics"] == VInt(deleted))
    ensures tags.systemTags.None? && tags.containment.None? && tags.lookup.None?
  {
    var st := WalkLibrary(root, walk, comics.rows, jobs, jobId);
    SyncFacts(root, walk, comics.rows);
    touched, deleted := ApplySync(comics, series, jobs, tags, jobId, st);
  }

  // ---------------------------------------------------------------------------
  // Phase two: `process_library_task`
  // ---------------------------------------------------------------------------

  /** The `path` column of a comic: its components joined by `/`. */
  function PathText(id: Path): String {
    Join("/", id)
  }

  /** `_process_single_comic(comic['id'], comic['path'])` for one pending comic,
      given what its archive holds and what saving its cover does. */
  function ScanOf(id: Path, archives: Path -> Archive, saves: Path -> (String -> SaveOutcome)): ComicScan {
    SingleComicScan(PathText(id), PathText(id), archives(id), saves(id))
  }

  /** The branch of lines 216-219: the file is gone, or it failed before any page was counted. */
  predicate Failed(r: ComicScan) {
    r.fileMissing || (r.errors != [] && r.pages == 0)
  }

  /** The `(pages, processed = 1, has_thumbnail, id)` tuple of one result (lines 216-225). */
  function WriteOf(id: Path, r: ComicScan): ScanWrite {
    if Failed(r) then ScanWrite(0, false, id) else ScanWrite(r.pages, r.hasThumb, id)
  }

  /** A row once phase two has inspected its archive. */
  function Processed(row: ComicRow, id: Path, scan: Path -> ComicScan)
    : ComicRow
  {
    Inspected(row, WriteFn(scan)(id).pages, WriteFn(scan)(id).hasThumbnail)
  }

  /** The counters of lines 197-201. */
  datatype Tally = Tally(processed: nat, pagesDone: nat, pagesErr: nat, thumbDone: nat, thumbErr: nat)

  const NoTally := Tally(0, 0, 0, 0, 0)

  /** Every processed comic is counted once among the pages and once among the thumbnails. */
  predicate Balanced(t: Tally) {
    t.pagesDone + t.pagesErr == t.processed && t.thumbDone + t.thumbErr == t.processed
  }

  /** The counters after one more result (lines 214-224). */
  function Count(t: Tally, r: ComicScan): Tally {
    var t1 := t.(processed := t.processed + 1);
    if Failed(r) then t1.(pagesErr := t1.pagesErr + 1, thumbErr := t1.thumbErr + 1)
    else
      var t2 := if r.pages > 0 then t1.(pagesDone := t1.pagesDone + 1) else t1.(pagesErr := t1.pagesErr + 1);
      if r.hasThumb then t2.(thumbDone := t2.thumbDone + 1) else t2.(thumbErr := t2.thumbErr + 1)
  }

  /** The counters agree with what is written: `processed_pages` counts the rows
      written with a positive page count, `processed_thumbnails` those written
      with `has_thumbnail = 1`. */
  lemma CountMatchesWrite(t: Tally, id: Path, r: ComicScan)
    ensures Count(t, r).processed == t.processed + 1
    ensures Count(t, r).pagesDone == t.pagesDone + (if WriteOf(id, r).pages > 0 then 1 else 0)
    ensures Count(t, r).thumbDone == t.thumbDone + (if WriteOf(id, r).hasThumbnail then 1 else 0)
    ensures Balanced(t) ==> Balanced(Count(t, r))
  {
  }

  /** The counters after a list of results, in order. */
  function CountAll(t: Tally, rs: seq<ComicScan>): Tally
    decreases |rs|
  {
    if rs == [] then t else Count(CountAll(t, rs[..|rs| - 1]), rs[|rs| - 1])
  }

  /** Counting keeps the tally balanced and counts every result. */
  lemma {:induction false} CountAllBalanced(t: Tally, rs: seq<ComicScan>)
    requires Balanced(t)
    ensures Balanced(CountAll(t, rs)) && CountAll(t, rs).processed == t.processed + |rs|
    decreases |rs|
  {
    if rs != [] {
      CountAllBalanced(t, rs[..|rs| - 1]);
      CountMatchesWrite(CountAll(t, rs[..|rs| - 1]), [], rs[|rs| - 1]);
    }
  }

  /** Counting two lists in a row counts their concatenation. */
  lemma {:induction false} CountAllConcat(t: Tally, a: seq<ComicScan>, b: seq<ComicScan>)
    ensures CountAll(t, a + b) == CountAll(CountAll(t, a), b)
    decreases |b|
  {
    if b != [] {
      assert (a + b)[..|a + b| - 1] == a + b[..|b| - 1];
      CountAllConcat(t, a, b[..|b| - 1]);
    } else {
      assert a + b == a;
    }
  }

  /** The entry of `all_scan_errors` for one result with errors (line 227). */
  function ErrorRecord(r: ComicScan): Json {
    JObj([Field("comic_id", JStr(r.comicId)), Field("filepath", JStr(r.filepath)),
          Field("errors", JArr(seq(|r.errors|, i requires 0 <= i < |r.errors| => JStr(r.errors[i]))))])
  }

  /** `all_scan_errors` after a list of results, in order. */
  function ErrorsOf(rs: seq<ComicScan>): seq<Json>
    decreases |rs|
  {
    if rs == [] then []
    else
      var r := rs[|rs| - 1];
      ErrorsOf(rs[..|rs| - 1]) + (if r.errors != [] then [ErrorRecord(r)] else [])
  }

  /** The error log holds a record for exactly the results that have errors. */
  lemma {:induction false} ErrorsOfMembers(rs: seq<ComicScan>)
    ensures forall e :: e in ErrorsOf(rs) <==> exists i :: 0 <= i < |rs| && rs[i].errors != [] && e == ErrorRecord(rs[i])
    decreases |rs|
  {
    if rs != [] {
      var init := rs[..|rs| - 1];
      ErrorsOfMembers(init);
      forall e | e in ErrorsOf(rs)
        ensures exists i :: 0 <= i < |rs| && rs[i].errors != [] && e == ErrorRecord(rs[i])
      {
        if e in ErrorsOf(init) {
          var i :| 0 <= i < |init| && init[i].errors != [] && e == ErrorRecord(init[i]);
          assert rs[i] == init[i];
        } else {
          assert rs[|rs| - 1].errors != [] && e == ErrorRecord(rs[|rs| - 1]);
        }
      }
      forall e | exists i :: 0 <= i < |rs| && rs[i].errors != [] && e == ErrorRecord(rs[i])
        ensures e in ErrorsOf(rs)
      {
        var i :| 0 <= i < |rs| && rs[i].errors != [] && e == ErrorRecord(rs[i]);
        if i < |rs| - 1 {
          assert init[i] == rs[i];
        }
      }
    }
  }

  /** Logging two lists in a row logs their concatenation. */
  lemma {:induction false} ErrorsOfConcat(a: seq<ComicScan>, b: seq<ComicScan>)
    ensures ErrorsOf(a + b) == ErrorsOf(a) + ErrorsOf(b)
    decreases |b|
  {
    if b != [] {
      assert (a + b)[..|a + b| - 1] == a + b[..|b| - 1];
      ErrorsOfConcat(a, b[..|b| - 1]);
    } else {
      assert a + b == a;
    }
  }

  /** Inspecting one comic, as a function of its path. */
  function ScanFn(archives: Path -> Archive, saves: Path -> (String -> SaveOutcome)): Path -> ComicScan {
    (id: Path) => ScanOf(id, archives, saves)
  }

  /** The update tuple of one comic, as a function of its path. */
  function WriteFn(scan: Path -> ComicScan): Path -> ScanWrite {
    (id: Path) => WriteOf(id, scan(id))
  }

  /** The results of a list of comics, in order. */
  function ScansOf(ids: seq<Path>, scan: Path -> ComicScan)
    : seq<ComicScan>
  {
    MapSeq(scan, ids)
  }

  /** The `update_buffer` of a list of comics. */
  function WritesOf(ids: seq<Path>, scan: Path -> ComicScan)
    : seq<ScanWrite>
  {
    MapSeq(WriteFn(scan), ids)
  }

  /** Counting one more result. */
  lemma CountAllSnoc(t: Tally, rs: seq<ComicScan>, r: ComicScan)
    ensures CountAll(t, rs + [r]) == Count(CountAll(t, rs), r)
  {
    assert (rs + [r])[..|rs|] == rs;
  }

  /** Logging one more result. */
  lemma ErrorsOfSnoc(rs: seq<ComicScan>, r: ComicScan)
    ensures ErrorsOf(rs + [r]) == ErrorsOf(rs) + (if r.errors != [] then [ErrorRecord(r)] else [])
  {
    assert (rs + [r])[..|rs|] == rs;
  }

  /** One more comic of a batch: one more result and one more tuple. */
  lemma BatchSnoc(ids: seq<Path>, i: nat, scan: Path -> ComicScan)
    requires i < |ids|
    ensures ScansOf(ids[..i + 1], scan) == ScansOf(ids[..i], scan) + [scan(ids[i])]
    ensures WritesOf(ids[..i + 1], scan)
            == WritesOf(ids[..i], scan) + [WriteOf(ids[i], scan(ids[i]))]
  {
    SliceSnoc(ids, i);
    MapSeqSnoc(scan, ids[..i], ids[i]);
    MapSeqSnoc(WriteFn(scan), ids[..i], ids[i]);
  }

  /** Lines 214-224: the counters after one result, field by field. */
  method CountResult(t: Tally, r: ComicScan) returns (t': Tally)
    ensures t' == Count(t, r)
  {
    t' := t.(processed := t.processed + 1);
    if r.fileMissing || (r.errors != [] && r.pages == 0) {
      t' := t'.(pagesErr := t'.pagesErr + 1, thumbErr := t'.thumbErr + 1);
    } else {
      if r.pages > 0 { t' := t'.(pagesDone := t'.pagesDone + 1); } else { t' := t'.(pagesErr := t'.pagesErr + 1); }
      if r.hasThumb { t' := t'.(thumbDone := t'.thumbDone + 1); } else { t' := t'.(thumbErr := t'.thumbErr + 1); }
    }
  }

  /** The loop of lines 210-227 after the first `i` comics of the batch. */
  ghost predicate BatchInv(pending: seq<Path>, scan: Path -> ComicScan,
                           t0: Tally, errs0: seq<Json>, i: nat, buffer: seq<ScanWrite>, t: Tally, errs: seq<Json>)
  {
    i <= |pending|
    && buffer == WritesOf(pending[..i], scan)
    && t == CountAll(t0, ScansOf(pending[..i], scan))
    && errs == errs0 + ErrorsOf(ScansOf(pending[..i], scan))
  }

  /** One more comic of the batch, counted, logged and buffered. */
  lemma BatchInvStep(pending: seq<Path>, scan: Path -> ComicScan,
                     t0: Tally, errs0: seq<Json>, i: nat, buffer: seq<ScanWrite>, t: Tally, errs: seq<Json>)
    requires BatchInv(pending, scan, t0, errs0, i, buffer, t, errs) && i < |pending|
    ensures var r := scan(pending[i]);
            BatchInv(pending, scan, t0, errs0, i + 1, buffer + [WriteOf(pending[i], r)], Count(t, r),
                     errs + if r.errors != [] then [ErrorRecord(r)] else [])
  {
    var r := scan(pending[i]);
    var scans := ScansOf(pending[..i], scan);
    BatchSnoc(pending, i, scan);
    CountAllSnoc(t0, scans, r);
    ErrorsOfSnoc(scans, r);
    ConcatAssoc(errs0, ErrorsOf(scans), if r.errors != [] then [ErrorRecord(r)] else []);
  }

  /** Lines 210-227: one batch of pending comics, each inspected once; returns the
      update buffer and the counters and error log extended by the batch. */
  method ProcessBatch(pending: seq<Path>, archives: Path -> Archive, saves: Path -> (String -> SaveOutcome),
                      t0: Tally, errs0: seq<Json>)
    returns (buffer: seq<ScanWrite>, t: Tally, errs: seq<Json>)
    ensures buffer == WritesOf(pending, ScanFn(archives, saves))
    ensures t == CountAll(t0, ScansOf(pending, ScanFn(archives, saves)))
    ensures errs == errs0 + ErrorsOf(ScansOf(pending, ScanFn(archives, saves)))
  {
    ghost var scan := ScanFn(archives, saves);
    buffer, t, errs := [], t0, errs0;
    var i := 0;
    while i < |pending|
      invariant BatchInv(pending, scan, t0, errs0, i, buffer, t, errs)
    {
      var id := pending[i];
      var r := ProcessSingleComic(PathText(id), PathText(id), archives(id), saves(id));
      assert r == scan(id);
      BatchInvStep(pending, scan, t0, errs0, i, buffer, t, errs);
      t := CountResult(t, r);
      if r.fileMissing || (r.errors != [] && r.pages == 0) {
        buffer := buffer + [ScanWrite(0, false, id)];
      } else {
        buffer := buffer + [ScanWrite(r.pages, r.hasThumb, id)];
      }
      if r.errors != [] {
        errs := errs + [ErrorRecord(r)];
      } else {
        errs := errs + [];
      }
      i := i + 1;
    }
    assert pending[..|pending|] == pending;
  }

  /** The results of two lists in a row. */
  lemma ScansOfConcat(a: seq<Path>, b: seq<Path>, scan: Path -> ComicScan)
    ensures ScansOf(a + b, scan) == ScansOf(a, scan) + ScansOf(b, scan)
  {
    MapSeqConcat(scan, a, b);
  }

  /** The `k`-th result belongs to the `k`-th comic. */
  lemma ScansOfAt(ids: seq<Path>, scan: Path -> ComicScan, k: nat)
    requires k < |ids|
    ensures |ScansOf(ids, scan)| == |ids| && ScansOf(ids, scan)[k] == scan(ids[k])
  {
    MapSeqAt(scan, ids, k);
  }

  /** Every tuple names its own comic. */
  lemma WriteFnIds(scan: Path -> ComicScan)
    ensures forall id :: WriteFn(scan)(id).id == id
  {
    forall id ensures WriteFn(scan)(id).id == id {
      assert WriteFn(scan)(id) == WriteOf(id, scan(id));
    }
  }

  /** The `errors` argument `process_library_task` passes to `complete_scan_job`
      at line 249 as written: the list already turned into JSON text, which
      `complete_scan_job` encodes a second time. */
  function CompletionErrorsAsWritten(errs: seq<Json>): Json {
    if errs == [] then JNull else JStr(Dumps(JArr(errs), true))
  }

  /** As written, a finished job's errors read back as one JSON string, not as the
      list of records that the progress updates stored for the same run. */
  lemma CompletionDoubleEncoded(errs: seq<Json>)
    requires errs != []
    ensures ParseErrors(StoredErrors(CompletionErrorsAsWritten(errs))) == Decoded(JStr(Dumps(JArr(errs), true)))
    ensures ParseErrors(StoredErrors(CompletionErrorsAsWritten(errs)))
            != ParseErrors(if errs == [] then None else Some(JsonText(JArr(errs))))
  {
    assert Dumps(JArr(errs), true) != [] by {
      assert Dumps(JArr(errs), true)[0] == '[';
    }
  }

  /** The corrected argument: the list itself, encoded once by `complete_scan_job`. */
  function CompletionErrors(errs: seq<Json>): Json {
    JArr(errs)
  }

  /** Corrected, a finished job stores its errors exactly as the last progress update did. */
  lemma CompletionMatchesProgress(errs: seq<Json>)
    ensures StoredErrors(CompletionErrors(errs)) == if errs == [] then None else Some(JsonText(JArr(errs)))
    ensures errs != [] ==> ParseErrors(StoredErrors(CompletionErrors(errs))) == Decoded(JArr(errs))
  {
  }

  /** The error log of a drained queue holds a record for exactly the pending comics whose result has errors. */
  lemma ErrorsOfDrained(done: seq<Path>, pending: set<Path>, scan: Path -> ComicScan)
    requires forall id :: id in done <==> id in pending
    ensures forall e :: e in ErrorsOf(ScansOf(done, scan)) <==>
              exists id :: id in pending && scan(id).errors != []
                           && e == ErrorRecord(scan(id))
  {
    var rs := ScansOf(done, scan);
    MapSeqLength(scan, done);
    ErrorsOfMembers(rs);
    forall e | e in ErrorsOf(rs)
      ensures exists id :: id in pending && scan(id).errors != [] && e == ErrorRecord(scan(id))
    {
      var i :| 0 <= i < |rs| && rs[i].errors != [] && e == ErrorRecord(rs[i]);
      ScansOfAt(done, scan, i);
      assert done[i] in done;
    }
    forall e | exists id :: id in pending && scan(id).errors != [] && e == ErrorRecord(scan(id))
      ensures e in ErrorsOf(rs)
    {
      var id :| id in pending && scan(id).errors != [] && e == ErrorRecord(scan(id));
      var i :| 0 <= i < |done| && done[i] == id;
      ScansOfAt(done, scan, i);
    }
  }
  /** What the loop of lines 207-245 has done once the comics of `done` are inspected. */
  ghost predicate PhaseTwoInv(rows0: map<Path, ComicRow>, rows: map<Path, ComicRow>, done: seq<Path>,
                              scan: Path -> ComicScan,
                              t: Tally, errs: seq<Json>)
  {
    Drained(rows0, rows, done, WriteFn(scan))
    && t == CountAll(NoTally, ScansOf(done, scan))
    && errs == ErrorsOf(ScansOf(done, scan))
  }

  /** One batch of the loop: inspected, counted, logged and written. */
  lemma PhaseTwoStep(rows0: map<Path, ComicRow>, rows: map<Path, ComicRow>, done: seq<Path>, batch: seq<Path>,
                     scan: Path -> ComicScan, t: Tally, errs: seq<Json>)
    requires PhaseTwoInv(rows0, rows, done, scan, t, errs)
    requires Distinct(batch) && forall i :: 0 <= i < |batch| ==> batch[i] in PendingIds(rows)
    ensures PhaseTwoInv(rows0, ApplyScanWrites(rows, WritesOf(batch, scan)), done + batch, scan,
                        CountAll(t, ScansOf(batch, scan)), errs + ErrorsOf(ScansOf(batch, scan)))
  {
    WriteFnIds(scan);
    DrainedStep(rows0, rows, done, batch, WriteFn(scan));
    ScansOfConcat(done, batch, scan);
    CountAllConcat(NoTally, ScansOf(done, scan), ScansOf(batch, scan));
    ErrorsOfConcat(ScansOf(done, scan), ScansOf(batch, scan));
  }

  /** The job row's phase-two columns after the batches of a run: the progress
      update of lines 233-244 carries the counters and the error log so far. */
  ghost predicate ReportsTally(row: JobRow, t: Tally, errs: seq<Json>) {
    row.processedComics == t.processed
    && row.errors == (if errs == [] then None else Some(JsonText(JArr(errs))))
    && "processed_pages" in row.metrics && row.metrics["processed_pages"] == VInt(t.pagesDone)
    && "page_errors" in row.metrics && row.metrics["page_errors"] == VInt(t.pagesErr)
    && "processed_thumbnails" in row.metrics && row.metrics["processed_thumbnails"] == VInt(t.thumbDone)
    && "thumbnail_errors" in row.metrics && row.metrics["thumbnail_errors"] == VInt(t.thumbErr)
  }

  /** The tally of a run counts each inspected comic once. */
  lemma TallyOfDone(done: seq<Path>, scan: Path -> ComicScan, t: Tally)
    requires t == CountAll(NoTally, ScansOf(done, scan))
    ensures Balanced(t) && t.processed == |done|
  {
    MapSeqLength(scan, done);
    CountAllBalanced(NoTally, ScansOf(done, scan));
  }

  /** Once nothing is pending, every comic that was pending is inspected with its
      own result and every other row is as it was. */
  lemma DrainedRows(rows0: map<Path, ComicRow>, rows: map<Path, ComicRow>, done: seq<Path>,
                    scan: Path -> ComicScan, t: Tally, errs: seq<Json>)
    requires PhaseTwoInv(rows0, rows, done, scan, t, errs) && PendingIds(rows) == {}
    ensures rows.Keys == rows0.Keys
    ensures forall id :: id in rows0 ==>
              rows[id] == if id in PendingIds(rows0) then Processed(rows0[id], id, scan) else rows0[id]
  {
    DrainedAll(rows0, rows, done, WriteFn(scan));
  }

  /** Once nothing is pending, the tally counts every comic that was pending once. */
  lemma DrainedTally(rows0: map<Path, ComicRow>, rows: map<Path, ComicRow>, done: seq<Path>,
                     scan: Path -> ComicScan, t: Tally, errs: seq<Json>)
    requires PhaseTwoInv(rows0, rows, done, scan, t, errs) && PendingIds(rows) == {}
    ensures Balanced(t) && t.processed == |PendingIds(rows0)|
  {
    DrainedAll(rows0, rows, done, WriteFn(scan));
    TallyOfDone(done, scan, t);
  }

  /** Once nothing is pending, the log holds a record for exactly the comics that
      were pending and whose inspection reported errors. */
  lemma DrainedErrors(rows0: map<Path, ComicRow>, rows: map<Path, ComicRow>, done: seq<Path>,
                      scan: Path -> ComicScan, t: Tally, errs: seq<Json>)
    requires PhaseTwoInv(rows0, rows, done, scan, t, errs) && PendingIds(rows) == {}
    ensures forall e :: e in errs <==>
              exists id :: id in PendingIds(rows0) && scan(id).errors != [] && e == ErrorRecord(scan(id))
  {
    DrainedAll(rows0, rows, done, WriteFn(scan));
    ErrorsOfDrained(done, PendingIds(rows0), scan);
  }

  /** Phase two's promise once the queue is drained: every row that was pending is
      inspected with its own result and no other row changes, the tally is balanced
      and counts every pending comic once, and the log holds a record for exactly
      the pending comics whose inspection reported errors. */
  ghost predicate PhaseTwoResult(rows0: map<Path, ComicRow>, rows: map<Path, ComicRow>, scan: Path -> ComicScan,
                                 t: Tally, errs: seq<Json>)
  {
    rows.Keys == rows0.Keys
    && (forall id :: id in rows0 ==>
          rows[id] == if id in PendingIds(rows0) then Processed(rows0[id], id, scan) else rows0[id])
    && Balanced(t) && t.processed == |PendingIds(rows0)|
    && (forall e :: e in errs <==>
          exists id :: id in PendingIds(rows0) && scan(id).errors != [] && e == ErrorRecord(scan(id)))
  }

  /** The loop's state with nothing left pending is phase two's promise. */
  lemma PhaseTwoDone(rows0: map<Path, ComicRow>, rows: map<Path, ComicRow>, done: seq<Path>,
                     scan: Path -> ComicScan, t: Tally, errs: seq<Json>)
    requires PhaseTwoInv(rows0, rows, done, scan, t, errs) && PendingIds(rows) == {}
    ensures PhaseTwoResult(rows0, rows, scan, t, errs)
  {
    DrainedRows(rows0, rows, done, scan, t, errs);
    DrainedTally(rows0, rows, done, scan, t, errs);
    DrainedErrors(rows0, rows, done, scan, t, errs);
  }

  /** Only the job itself changes in the job table. */
  ghost predicate JobsFrame(rows0: map<nat, JobRow>, rows: map<nat, JobRow>, jobId: Option<nat>) {
    rows.Keys == rows0.Keys && forall j :: j in rows0 && Some(j) != jobId ==> rows[j] == rows0[j]
  }

  /** The job table while phase two runs: the job's row carries the total and,
      once a batch is done, the counters and the log so far. */
  ghost predicate JobsReport(rows0: map<nat, JobRow>, rows: map<nat, JobRow>, jobId: Option<nat>, total: nat,
                             t: Tally, errs: seq<Json>)
  {
    JobsFrame(rows0, rows, jobId)
    && (jobId.Some? && jobId.value in rows ==>
          rows[jobId.value].totalComics == total && rows[jobId.value].processedComics == t.processed
          && (t.processed > 0 ==> ReportsTally(rows[jobId.value], t, errs)))
  }

  /** The job table once phase two is over: the job is completed at `now` with the
      log stored once, and, if anything was inspected, its row still reports the
      final counters against the number of comics that were pending. */
  ghost predicate JobFinished(rows0: map<nat, JobRow>, rows: map<nat, JobRow>, jobId: Option<nat>, now: int,
                              t: Tally, errs: seq<Json>)
  {
    JobsFrame(rows0, rows, jobId)
    && (jobId.Some? && jobId.value in rows ==>
          rows[jobId.value].status == Completed && rows[jobId.value].completedAt == Some(now)
          && rows[jobId.value].errors == StoredErrors(CompletionErrors(errs))
          && (t.processed > 0 ==> rows[jobId.value].totalComics == t.processed && ReportsTally(rows[jobId.value], t, errs)))
  }

  /** Completing the job after the batches keeps what they reported. */
  lemma CompletedReports(rows0: map<nat, JobRow>, before: map<nat, JobRow>, after: map<nat, JobRow>, jobId: nat,
                         now: int, t: Tally, errs: seq<Json>, e: Json)
    requires JobsFrame(rows0, before, Some(jobId)) && StoredErrors(e) == StoredErrors(CompletionErrors(errs))
    requires jobId !in before ==> after == before
    requires jobId in before ==>
               after == before[jobId := before[jobId].(status := Completed, completedAt := Some(now), errors := StoredErrors(e))]
    requires jobId in before && t.processed > 0 ==>
               before[jobId].totalComics == t.processed && ReportsTally(before[jobId], t, errs)
    ensures JobFinished(rows0, after, Some(jobId), now, t, errs)
  {
    CompletionMatchesProgress(errs);
  }

  /** The row written by the progress update of lines 233-244 reports the counters
      and the log it was given. */
  lemma RecordedReports(row: JobRow, t: Tally, errs: seq<Json>, last: String)
    ensures ReportsTally(row.(
              processedComics := t.processed,
              errors := if errs == [] then None else Some(JsonText(JArr(errs))),
              metrics := row.metrics["current_file" := VText(last)]["phase" := VText("Phase 2: Processing")]
                                    ["processed_pages" := VInt(t.pagesDone)]["page_errors" := VInt(t.pagesErr)]
                                    ["processed_thumbnails" := VInt(t.thumbDone)]["thumbnail_errors" := VInt(t.thumbErr)]),
                         t, errs)
  {
    var m := row.metrics["current_file" := VText(last)]["phase" := VText("Phase 2: Processing")]
                        ["processed_pages" := VInt(t.pagesDone)]["page_errors" := VInt(t.pagesErr)]
                        ["processed_thumbnails" := VInt(t.thumbDone)]["thumbnail_errors" := VInt(t.thumbErr)];
    assert "processed_pages" != "page_errors" && "processed_pages" != "processed_thumbnails"
      && "processed_pages" != "thumbnail_errors" && "page_errors" != "processed_thumbnails"
      && "page_errors" != "thumbnail_errors" && "processed_thumbnails" != "thumbnail_errors";
  }

  /** Lines 208-232 for one batch: inspect it and write the buffer. */
  method InspectBatch(comics: ComicsTable, pending: seq<Path>,
                      archives: Path -> Archive, saves: Path -> (String -> SaveOutcome),
                      t: Tally, errs: seq<Json>, ghost rows0: map<Path, ComicRow>, ghost done: seq<Path>)
    returns (t': Tally, errs': seq<Json>)
    requires PhaseTwoInv(rows0, comics.rows, done, ScanFn(archives, saves), t, errs)
    requires Distinct(pending) && forall i :: 0 <= i < |pending| ==> pending[i] in PendingIds(comics.rows)
    modifies comics
    ensures PhaseTwoInv(rows0, comics.rows, done + pending, ScanFn(archives, saves), t', errs')
  {
    var buffer;
    buffer, t', errs' := ProcessBatch(pending, archives, saves, t, errs);
    PhaseTwoStep(rows0, comics.rows, done, pending, ScanFn(archives, saves), t, errs);
    comics.WriteScanResults(buffer);
  }

  /** Lines 233-245: the progress update after a batch, naming the file of its last comic. */
  method ReportBatch(jobs: ScanJobsTable, jobId: Option<nat>, lastPath: Path, t: Tally, errs: seq<Json>,
                     ghost jobs0: map<nat, JobRow>, total: nat, ghost t0: Tally, ghost errs0: seq<Json>)
    requires jobs.Valid() && JobsReport(jobs0, jobs.rows, jobId, total, t0, errs0)
    modifies jobs
    ensures jobs.Valid() && JobsReport(jobs0, jobs.rows, jobId, total, t, errs)
  {
    if jobId.Some? {
      ghost var before := jobs.rows;
      var last := Basename(PathText(lastPath));
      jobs.RecordBatch(jobId.value, t.processed, last, t.pagesDone, t.pagesErr, t.thumbDone, t.thumbErr, errs);
      if jobId.value in before {
        RecordedReports(before[jobId.value], t, errs, last);
      }
    }
  }

  /** Lines 189 and 249: `complete_scan_job(job_id, 'completed', errors)` when there is a job. */
  method FinishJob(jobs: ScanJobsTable, jobId: Option<nat>, e: Json, now: int,
                   ghost jobs0: map<nat, JobRow>, ghost t: Tally, ghost errs: seq<Json>)
    requires jobs.Valid() && JobsFrame(jobs0, jobs.rows, jobId)
    requires StoredErrors(e) == StoredErrors(CompletionErrors(errs))
    requires jobId.Some? && jobId.value in jobs.rows && t.processed > 0 ==>
               jobs.rows[jobId.value].totalComics == t.processed && ReportsTally(jobs.rows[jobId.value], t, errs)
    modifies jobs
    ensures jobs.Valid() && JobFinished(jobs0, jobs.rows, jobId, now, t, errs)
  {
    if jobId.Some? {
      ghost var before := jobs.rows;
      jobs.CompleteScanJob(jobId.value, Completed, e, now);
      CompletedReports(jobs0, before, jobs.rows, jobId.value, now, t, errs, e);
    }
  }

  /** Before the first batch nothing is inspected, counted or logged. */
  lemma PhaseTwoStart(rows0: map<Path, ComicRow>, scan: Path -> ComicScan)
    ensures PhaseTwoInv(rows0, rows0, [], scan, NoTally, [])
  {
  }
}
