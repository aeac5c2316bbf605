/** The list computations of `routes/discovery.py`: the recently added comics
    grouped by series, and the series suggested from the tags of what the
    user read recently. The SQL queries' tables are given as sequences of
    rows and the clock's seven-day window as the rows it selects. */
module Discovery {
  import opened Text
  import opened Wrappers
  import opened Collections
  import opened Json

  // ---------------------------------------------------------------------------
  // GET /api/discovery/new-additions
  // ---------------------------------------------------------------------------

  /** The columns of a `comics` row that the query selects. */
  datatype ComicRow = ComicRow(id: String, title: Option<String>, series: Option<String>,
                               seriesId: Option<int>, hasThumbnail: bool, mtime: int)

  /** One `series_group` entry of the response. */
  datatype SeriesGroup = SeriesGroup(series: String, seriesId: Option<int>, count: nat,
                                     firstComicId: String, latestMtime: int,
                                     chapterTitles: seq<Option<String>>)

  /** `LIMIT 100` of the comics query. */
  const RecentLimit: nat := 100

  /** `result[:30]`. */
  const GroupLimit: nat := 30

  /** `chapters[:5]`. */
  const TitleLimit: nat := 5

  /** `ORDER BY mtime DESC`. */
  predicate NewerComic(a: ComicRow, b: ComicRow) { a.mtime > b.mtime }

  /** `sort(key=latest_mtime, reverse=True)`. */
  predicate LaterGroup(a: SeriesGroup, b: SeriesGroup) { a.latestMtime > b.latestMtime }

  /** The rows with `has_thumbnail = 1`, in table order. */
  function Thumbnailed(table: seq<ComicRow>): (r: seq<ComicRow>)
    ensures forall i :: 0 <= i < |r| ==> r[i].hasThumbnail && r[i] in table
    ensures forall c :: c in table && c.hasThumbnail ==> c in r
    decreases |table|
  {
    if table == [] then []
    else
      var init, last := table[..|table| - 1], table[|table| - 1];
      assert table == init + [last];
      Thumbnailed(init) + (if last.hasThumbnail then [last] else [])
  }

  /** The comics query: the 100 most recently modified comics with a
      thumbnail, newest first. */
  function RecentComics(table: seq<ComicRow>): (r: seq<ComicRow>)
    ensures |r| == if |Thumbnailed(table)| <= RecentLimit then |Thumbnailed(table)| else RecentLimit
    ensures SortedBy(r, NewerComic)
    ensures forall c :: c in r ==> c.hasThumbnail && c in table
  {
    assert StrictOrder(NewerComic);
    var t := Thumbnailed(table);
    var sorted := SortBy(t, NewerComic);
    assert |sorted| == |multiset(sorted)| == |multiset(t)| == |t|;
    TakeSorted(sorted, RecentLimit, NewerComic);
    var r := Take(sorted, RecentLimit);
    assert forall c :: c in r ==> c.hasThumbnail && c in table by {
      forall c | c in r ensures c.hasThumbnail && c in table {
        assert c in multiset(sorted);
        var i :| 0 <= i < |t| && t[i] == c;
      }
    }
    r
  }

  /** The query keeps the newest comics: a thumbnailed comic it leaves out is
      no newer than any comic it keeps, and with at most 100 thumbnailed
      comics it leaves none out. */
  lemma RecentComicsAreNewest(table: seq<ComicRow>)
    ensures var r := RecentComics(table);
            (|Thumbnailed(table)| <= RecentLimit ==> forall c :: c in table && c.hasThumbnail ==> c in r)
            && forall c, i :: c in table && c.hasThumbnail && c !in r && 0 <= i < |r| ==> r[i].mtime >= c.mtime
  {
    assert StrictOrder(NewerComic);
    var t := Thumbnailed(table);
    var sorted := SortBy(t, NewerComic);
    var r := RecentComics(table);
    assert r == Take(sorted, RecentLimit);
    forall c | c in table && c.hasThumbnail ensures c in sorted {
      assert c in multiset(t);
    }
    if |t| <= RecentLimit {
      assert |sorted| == |multiset(sorted)| == |multiset(t)| == |t|;
    }
    TakeSortedKeepsFirst(sorted, RecentLimit, NewerComic);
  }

  /** `comic['series'] or 'Unknown Series'`. */
  function SeriesKey(c: ComicRow): String {
    match c.series
    case Some(s) => if s != [] then s else "Unknown Series"
    case None => "Unknown Series"
  }

  /** The keys of `series_groups`, in the order the dictionary first sees
      them. */
  function KeysOf(cs: seq<ComicRow>): seq<String>
    decreases |cs|
  {
    if cs == [] then []
    else
      var ks := KeysOf(cs[..|cs| - 1]);
      var k := SeriesKey(cs[|cs| - 1]);
      if k in ks then ks else ks + [k]
  }

  /** The comics filed under `k`, in query order. */
  function MembersOf(cs: seq<ComicRow>, k: String): seq<ComicRow>
    decreases |cs|
  {
    if cs == [] then []
    else MembersOf(cs[..|cs| - 1], k) + (if SeriesKey(cs[|cs| - 1]) == k then [cs[|cs| - 1]] else [])
  }

  /** `series_groups` after its filling loop. */
  function GroupsOf(cs: seq<ComicRow>): (m: map<String, seq<ComicRow>>)
    ensures forall k :: k in m <==> k in KeysOf(cs)
    decreases |cs|
  {
    if cs == [] then map[]
    else
      var m := GroupsOf(cs[..|cs| - 1]);
      var k := SeriesKey(cs[|cs| - 1]);
      m[k := (if k in m then m[k] else []) + [cs[|cs| - 1]]]
  }

  /** The `defaultdict(list)` filling loop. */
  method GroupBySeries(comics: seq<ComicRow>) returns (keys: seq<String>, groups: map<String, seq<ComicRow>>)
    ensures keys == KeysOf(comics) && groups == GroupsOf(comics)
  {
    keys := [];
    groups := map[];
    for i := 0 to |comics|
      invariant keys == KeysOf(comics[..i]) && groups == GroupsOf(comics[..i])
    {
      assert comics[..i + 1][..i] == comics[..i];
      var key := SeriesKey(comics[i]);
      if key !in keys {
        keys := keys + [key];
      }
      var chapters := if key in groups then groups[key] else [];
      groups := groups[key := chapters + [comics[i]]];
    }
    assert comics[..|comics|] == comics;
  }

  /** The dictionary holds a group under each key it has seen, and that
      group is the comics with that key, in order. */
  lemma {:induction false} GroupsAreMembers(cs: seq<ComicRow>)
    ensures forall k :: k in GroupsOf(cs) ==> GroupsOf(cs)[k] == MembersOf(cs, k)
    ensures forall k :: k !in KeysOf(cs) ==> MembersOf(cs, k) == []
    decreases |cs|
  {
    if cs != [] {
      GroupsAreMembers(cs[..|cs| - 1]);
    }
  }

  /** Every comic's key is among the keys. */
  lemma {:induction false} KeysComplete(cs: seq<ComicRow>)
    ensures forall i :: 0 <= i < |cs| ==> SeriesKey(cs[i]) in KeysOf(cs)
    decreases |cs|
  {
    if cs != [] {
      var init := cs[..|cs| - 1];
      KeysComplete(init);
      forall i | 0 <= i < |cs| ensures SeriesKey(cs[i]) in KeysOf(cs) {
        if i < |cs| - 1 { assert cs[i] == init[i]; }
      }
    }
  }

  /** Every key has comics filed under it. */
  lemma {:induction false} KeysHaveMembers(cs: seq<ComicRow>)
    ensures forall k :: k in KeysOf(cs) ==> MembersOf(cs, k) != []
    decreases |cs|
  {
    if cs != [] {
      KeysHaveMembers(cs[..|cs| - 1]);
    }
  }

  /** No key repeats. */
  lemma {:induction false} KeysDistinct(cs: seq<ComicRow>)
    ensures Distinct(KeysOf(cs))
    decreases |cs|
  {
    if cs != [] {
      KeysDistinct(cs[..|cs| - 1]);
    }
  }

  lemma {:induction false} NoMembersOutside(cs: seq<ComicRow>, k: String)
    requires k !in KeysOf(cs)
    ensures MembersOf(cs, k) == []
    decreases |cs|
  {
    if cs != [] {
      NoMembersOutside(cs[..|cs| - 1], k);
    }
  }

  /** `max(c['mtime'] for c in chapters)`. */
  function MaxMtime(cs: seq<ComicRow>): (m: int)
    requires cs != []
    ensures forall i :: 0 <= i < |cs| ==> cs[i].mtime <= m
    ensures exists i :: 0 <= i < |cs| && cs[i].mtime == m
    decreases |cs|
  {
    if |cs| == 1 then cs[0].mtime
    else
      var m := MaxMtime(cs[..|cs| - 1]);
      var last := cs[|cs| - 1].mtime;
      assert forall i :: 0 <= i < |cs| - 1 ==> cs[i] == cs[..|cs| - 1][i];
      if last > m then last else m
  }

  function Titles(cs: seq<ComicRow>): (r: seq<Option<String>>)
    ensures |r| == |cs| && forall i :: 0 <= i < |cs| ==> r[i] == cs[i].title
  {
    seq(|cs|, i requires 0 <= i < |cs| => cs[i].title)
  }

  /** The entry for series `k` with its comics. */
  function Summary(k: String, chapters: seq<ComicRow>): SeriesGroup
    requires chapters != []
  {
    SeriesGroup(k, chapters[0].seriesId, |chapters|, chapters[0].id, MaxMtime(chapters),
                Titles(Take(chapters, TitleLimit)))
  }

  /** The entries built from the groups of `keys`, in order, skipping empty
      groups. */
  function SummariesOf(keys: seq<String>, groups: map<String, seq<ComicRow>>): seq<SeriesGroup>
    requires forall k :: k in keys ==> k in groups
    decreases |keys|
  {
    if keys == [] then []
    else
      var init, k := keys[..|keys| - 1], keys[|keys| - 1];
      assert forall j :: j in init ==> j in keys;
      SummariesOf(init, groups) + (if |groups[k]| > 0 then [Summary(k, groups[k])] else [])
  }

  /** The loop over `series_groups.items()`. */
  method BuildGroups(keys: seq<String>, groups: map<String, seq<ComicRow>>) returns (result: seq<SeriesGroup>)
    requires forall k :: k in keys ==> k in groups
    ensures result == SummariesOf(keys, groups)
  {
    result := [];
    for i := 0 to |keys|
      invariant result == SummariesOf(keys[..i], groups)
    {
      assert keys[..i + 1][..i] == keys[..i];
      var chapters := groups[keys[i]];
      if |chapters| > 0 {
        result := result + [Summary(keys[i], chapters)];
      }
    }
    assert keys[..|keys|] == keys;
  }

  /** The response: the groups of the recent comics, latest first, at most
      30 of them. */
  function NewAdditionsOf(table: seq<ComicRow>): seq<SeriesGroup> {
    var recent := RecentComics(table);
    assert StrictOrder(LaterGroup);
    Take(SortBy(SummariesOf(KeysOf(recent), GroupsOf(recent)), LaterGroup), GroupLimit)
  }

  /** `get_new_additions`. */
  method GetNewAdditions(table: seq<ComicRow>) returns (r: seq<SeriesGroup>)
    ensures r == NewAdditionsOf(table)
  {
    var comics := RecentComics(table);
    var keys, groups := GroupBySeries(comics);
    GroupsAreMembers(comics);
    var result := BuildGroups(keys, groups);
    assert StrictOrder(LaterGroup);
    result := SortBy(result, LaterGroup);
    r := Take(result, GroupLimit);
  }

  /** One entry per series key, in first-seen order, each describing
      exactly the comics filed under it. */
  lemma {:induction false} SummariesAreGroups(cs: seq<ComicRow>)
    ensures var keys := KeysOf(cs);
            var s := SummariesOf(keys, GroupsOf(cs));
            |s| == |keys|
            && forall i :: 0 <= i < |keys| ==> MembersOf(cs, keys[i]) != [] && s[i] == Summary(keys[i], MembersOf(cs, keys[i]))
  {
    var keys, groups := KeysOf(cs), GroupsOf(cs);
    GroupsAreMembers(cs);
    KeysHaveMembers(cs);
    assert forall k :: k in keys ==> k in groups && groups[k] != [];
    SummariesOfNonEmpty(keys, groups);
    forall i | 0 <= i < |keys| ensures MembersOf(cs, keys[i]) != [] && groups[keys[i]] == MembersOf(cs, keys[i]) {
      assert keys[i] in keys;
    }
  }

  lemma {:induction false} SummariesOfNonEmpty(keys: seq<String>, groups: map<String, seq<ComicRow>>)
    requires forall k :: k in keys ==> k in groups && groups[k] != []
    ensures |SummariesOf(keys, groups)| == |keys|
    ensures forall i :: 0 <= i < |keys| ==> SummariesOf(keys, groups)[i] == Summary(keys[i], groups[keys[i]])
    decreases |keys|
  {
    if keys != [] {
      var init, k := keys[..|keys| - 1], keys[|keys| - 1];
      assert forall j :: j in init ==> j in keys;
      SummariesOfNonEmpty(init, groups);
      assert k in keys;
      var s := SummariesOf(keys, groups);
      assert s == SummariesOf(init, groups) + [Summary(k, groups[k])];
      forall i | 0 <= i < |keys| ensures s[i] == Summary(keys[i], groups[keys[i]]) {
        if i < |init| {
          assert keys[i] == init[i];
        }
      }
    }
  }

  /** A group's entry: its size, its first comic, its newest time and at
      most five titles, the first ones. */
  lemma SummaryFacts(k: String, chapters: seq<ComicRow>)
    requires chapters != []
    ensures var g := Summary(k, chapters);
            g.series == k && g.count == |chapters| >= 1 && g.firstComicId == chapters[0].id
            && (forall i :: 0 <= i < |chapters| ==> chapters[i].mtime <= g.latestMtime)
            && (exists i :: 0 <= i < |chapters| && chapters[i].mtime == g.latestMtime)
            && |g.chapterTitles| == (if |chapters| < TitleLimit then |chapters| else TitleLimit)
            && forall i :: 0 <= i < |g.chapterTitles| ==> g.chapterTitles[i] == chapters[i].title
  {
  }

  /** The comics of one series keep the newest-first order of the query. */
  lemma {:induction false} MembersSorted(cs: seq<ComicRow>, k: String)
    requires SortedBy(cs, NewerComic)
    ensures SortedBy(MembersOf(cs, k), NewerComic)
    ensures forall c :: c in MembersOf(cs, k) ==> c in cs
    decreases |cs|
  {
    if cs != [] {
      var init, last := cs[..|cs| - 1], cs[|cs| - 1];
      assert SortedBy(init, NewerComic);
      MembersSorted(init, k);
      var m := MembersOf(init, k);
      forall c | c in m ensures !NewerComic(last, c) {
        var j :| 0 <= j < |init| && init[j] == c;
        assert cs[j] == c;
      }
    }
  }

  /** Since the query lists newest first, a group's first comic is its
      newest one: `first_comic_id` names a comic of time `latest_mtime`. */
  lemma FirstIsLatest(cs: seq<ComicRow>, k: String)
    requires SortedBy(cs, NewerComic) && MembersOf(cs, k) != []
    ensures var m := MembersOf(cs, k); Summary(k, m).latestMtime == m[0].mtime
  {
    MembersSorted(cs, k);
    var m := MembersOf(cs, k);
    var g := Summary(k, m);
    var i :| 0 <= i < |m| && m[i].mtime == g.latestMtime;
    if i > 0 {
      assert !NewerComic(m[i], m[0]);
    }
  }

  /** The sizes of the groups of `keys`. */
  function Sizes(cs: seq<ComicRow>, keys: seq<String>): nat
    decreases |keys|
  {
    if keys == [] then 0 else Sizes(cs, keys[..|keys| - 1]) + |MembersOf(cs, keys[|keys| - 1])|
  }

  lemma {:induction false} SizesSnoc(cs: seq<ComicRow>, c: ComicRow, keys: seq<String>)
    requires Distinct(keys)
    ensures Sizes(cs + [c], keys) == Sizes(cs, keys) + (if SeriesKey(c) in keys then 1 else 0)
    decreases |keys|
  {
    if keys != [] {
      var init := keys[..|keys| - 1];
      SizesSnoc(cs, c, init);
      assert (cs + [c])[..|cs|] == cs;
      assert keys == init + [keys[|keys| - 1]];
    }
  }

  /** The groups partition the comics: their counts add up to the number of
      comics. */
  lemma {:induction false} CountsCover(cs: seq<ComicRow>)
    ensures Sizes(cs, KeysOf(cs)) == |cs|
    decreases |cs|
  {
    if cs != [] {
      var init, c := cs[..|cs| - 1], cs[|cs| - 1];
      var keys, k := KeysOf(init), SeriesKey(c);
      CountsCover(init);
      KeysDistinct(init);
      SizesLast(cs, keys);
      if k !in keys {
        NoMembersOutside(init, k);
        assert MembersOf(cs, k) == [c];
        assert (keys + [k])[..|keys|] == keys;
      }
    }
  }

  /** `SizesSnoc` for a list split at its last comic. */
  lemma SizesLast(cs: seq<ComicRow>, keys: seq<String>)
    requires cs != [] && Distinct(keys)
    ensures Sizes(cs, keys) == Sizes(cs[..|cs| - 1], keys) + (if SeriesKey(cs[|cs| - 1]) in keys then 1 else 0)
  {
    assert cs == cs[..|cs| - 1] + [cs[|cs| - 1]];
    SizesSnoc(cs[..|cs| - 1], cs[|cs| - 1], keys);
  }

  /** The response is latest first, holds at most 30 groups, and every one
      of them is a group of the recent comics. */
  lemma NewAdditionsFacts(table: seq<ComicRow>)
    ensures var r := NewAdditionsOf(table);
            var recent := RecentComics(table);
            |r| <= GroupLimit && SortedBy(r, LaterGroup)
            && forall g :: g in r ==> g in SummariesOf(KeysOf(recent), GroupsOf(recent))
  {
    var recent := RecentComics(table);
    GroupsAreMembers(recent);
    assert StrictOrder(LaterGroup);
    var all := SummariesOf(KeysOf(recent), GroupsOf(recent));
    var sorted := SortBy(all, LaterGroup);
    var r := NewAdditionsOf(table);
    assert r == Take(sorted, GroupLimit);
    forall g | g in r ensures g in all {
      assert g in sorted;
      assert g in multiset(sorted);
    }
    forall i, j | 0 <= i < j < |r| ensures !LaterGroup(r[j], r[i]) {
      assert r[i] == sorted[i] && r[j] == sorted[j];
    }
  }

  // ---------------------------------------------------------------------------
  // GET /api/discovery/suggestions
  // ---------------------------------------------------------------------------

  /** A row of the recent-reads queries: a series read, by name and id. */
  datatype RecentRow = RecentRow(series: Option<String>, seriesId: int)

  /** A `genres` or `tags` column: NULL, or text with what `json.loads`
      makes of it (`None` when it raises). */
  datatype TagColumn = Null | Text(text: String, decoded: Option<Json>)

  /** A `series` row with the number of its comics (`available_chapters`). */
  datatype SeriesRow = SeriesRow(id: int, name: String, title: Option<String>, synopsis: Option<String>,
                                 coverComicId: Option<String>, status: Option<String>,
                                 totalChapters: Option<int>, genres: TagColumn, tags: TagColumn,
                                 availableChapters: nat)

  /** An entry of `scored`. */
  datatype Scored = Scored(score: nat, row: SeriesRow, matches: set<String>)

  /** One suggested series of the response. */
  datatype Suggestion = Suggestion(id: int, name: String, title: Option<String>, synopsis: Option<String>,
                                   coverComicId: Option<String>, status: Option<String>,
                                   totalChapters: Option<int>, availableChapters: nat,
                                   matchingTags: set<String>, matchScore: nat)

  /** Fewer recent reads than this switch to the most recent ones. */
  const MinRecent: nat := 3

  /** `scored[:30]`. */
  const SuggestionLimit: nat := 30

  /** The stripped non-empty strings of a JSON list; other items are
      skipped. */
  function ItemTags(items: seq<Json>): set<String> {
    set i | 0 <= i < |items| && items[i].JStr? && items[i].s != [] :: Strip(items[i].s)
  }

  /** What the generator yields for each kind of decoded value: iterating a
      list gives its items, an object its keys and a string its characters;
      anything else raises and adds nothing. */
  function IterTags(j: Json): set<String> {
    match j
    case JArr(items) => ItemTags(items)
    case JObj(fields) => set i | 0 <= i < |fields| && fields[i].key != [] :: Strip(fields[i].key)
    case JStr(s) => set i | 0 <= i < |s| :: Strip([s[i]])
    case _ => {}
  }

  /** The tags one column adds: nothing for NULL, empty text or text
      `json.loads` refuses. */
  function ColumnTags(col: TagColumn): set<String> {
    match col
    case Null => {}
    case Text(text, decoded) =>
      if text == [] then {}
      else match decoded
        case None => {}
        case Some(j) => IterTags(j)
  }

  /** A series' tags: its genres and its tags together. */
  function SeriesTags(row: SeriesRow): set<String> {
    ColumnTags(row.genres) + ColumnTags(row.tags)
  }

  /** The series whose tags are collected: the recent reads of the last
      seven days, or the three latest reads when there are fewer than three. */
  function RecentOf(week: seq<RecentRow>, latest: seq<RecentRow>): (r: seq<RecentRow>)
    ensures |week| < MinRecent ==> |r| <= MinRecent
    ensures |week| >= MinRecent ==> r == week
  {
    if |week| < MinRecent then Take(latest, MinRecent) else week
  }

  function IdsOf(recent: seq<RecentRow>): (ids: seq<int>)
    ensures |ids| == |recent| && forall i :: 0 <= i < |recent| ==> ids[i] == recent[i].seriesId
  {
    seq(|recent|, i requires 0 <= i < |recent| => recent[i].seriesId)
  }

  /** `SELECT genres, tags FROM series WHERE id IN (...)`. */
  function TagRows(table: seq<SeriesRow>, ids: seq<int>): (r: seq<SeriesRow>)
    ensures forall row :: row in r <==> row in table && row.id in ids
    decreases |table|
  {
    if table == [] then []
    else
      var init, last := table[..|table| - 1], table[|table| - 1];
      assert table == init + [last];
      TagRows(init, ids) + (if last.id in ids then [last] else [])
  }

  /** `user_tags` after its filling loop. */
  function UserTagsOf(rows: seq<SeriesRow>): set<String>
    decreases |rows|
  {
    if rows == [] then {} else UserTagsOf(rows[..|rows| - 1]) + SeriesTags(rows[|rows| - 1])
  }

  /** The loop over `tags_query`. */
  method CollectUserTags(rows: seq<SeriesRow>) returns (userTags: set<String>)
    ensures userTags == UserTagsOf(rows)
  {
    userTags := {};
    for i := 0 to |rows|
      invariant userTags == UserTagsOf(rows[..i])
    {
      assert rows[..i + 1][..i] == rows[..i];
      userTags := userTags + ColumnTags(rows[i].genres);
      userTags := userTags + ColumnTags(rows[i].tags);
    }
    assert rows[..|rows|] == rows;
  }

  /** The user's tags are exactly the tags of the series read. */
  lemma {:induction false} UserTagsAreReadTags(rows: seq<SeriesRow>, t: String)
    ensures t in UserTagsOf(rows) <==> exists row :: row in rows && t in SeriesTags(row)
    decreases |rows|
  {
    if rows != [] {
      var init, last := rows[..|rows| - 1], rows[|rows| - 1];
      UserTagsAreReadTags(init, t);
      assert rows == init + [last];
      if t in UserTagsOf(init) {
        var row :| row in init && t in SeriesTags(row);
        assert row in rows;
      }
    }
  }

  /** The suggestion query: series not read recently that have genres or
      tags. */
  function Unread(table: seq<SeriesRow>, ids: seq<int>): (r: seq<SeriesRow>)
    ensures forall row :: row in r <==> row in table && row.id !in ids && (row.genres != Null || row.tags != Null)
    decreases |table|
  {
    if table == [] then []
    else
      var init, last := table[..|table| - 1], table[|table| - 1];
      assert table == init + [last];
      Unread(init, ids) + (if last.id !in ids && (last.genres != Null || last.tags != Null) then [last] else [])
  }

  function ScoreOf(userTags: set<String>, row: SeriesRow): Scored {
    var m := userTags * SeriesTags(row);
    Scored(|m|, row, m)
  }

  /** `scored` after its filling loop: the rows sharing a tag with the
      user, with the shared tags and their number. */
  function ScoredOf(rows: seq<SeriesRow>, userTags: set<String>): (r: seq<Scored>)
    ensures forall x :: x in r <==> exists row :: row in rows && x == ScoreOf(userTags, row) && x.matches != {}
    decreases |rows|
  {
    if rows == [] then []
    else
      var init, last := rows[..|rows| - 1], rows[|rows| - 1];
      assert rows == init + [last];
      var x := ScoreOf(userTags, last);
      ScoredOf(init, userTags) + (if x.matches != {} then [x] else [])
  }

  /** The scoring loop. */
  method ScoreRows(rows: seq<SeriesRow>, userTags: set<String>) returns (scored: seq<Scored>)
    ensures scored == ScoredOf(rows, userTags)
  {
    scored := [];
    for i := 0 to |rows|
      invariant scored == ScoredOf(rows[..i], userTags)
    {
      assert rows[..i + 1][..i] == rows[..i];
      var seriesTags := ColumnTags(rows[i].genres);
      seriesTags := seriesTags + ColumnTags(rows[i].tags);
      var matches := userTags * seriesTags;
      if matches != {} {
        scored := scored + [Scored(|matches|, rows[i], matches)];
      }
    }
    assert rows[..|rows|] == rows;
  }

  /** `sort(key=score, reverse=True)`. */
  predicate HigherScore(a: Scored, b: Scored) { a.score > b.score }

  function ToSuggestion(x: Scored): Suggestion {
    var d := x.row;
    Suggestion(d.id, d.name, d.title, d.synopsis, d.coverComicId, d.status, d.totalChapters,
               d.availableChapters, x.matches, x.score)
  }

  /** The response entries for `top`, in order. */
  function Present(top: seq<Scored>): (r: seq<Suggestion>)
    ensures |r| == |top|
  {
    seq(|top|, i requires 0 <= i < |top| => ToSuggestion(top[i]))
  }

  /** The entry a suggestion was built from. */
  lemma PresentedFrom(top: seq<Scored>, s: Suggestion) returns (x: Scored)
    requires s in Present(top)
    ensures x in top && s == ToSuggestion(x)
  {
    var i :| 0 <= i < |top| && Present(top)[i] == s;
    x := top[i];
  }

  /** The best 30 entries, highest score first. */
  function TopScored(scored: seq<Scored>): (r: seq<Scored>)
    ensures |r| <= SuggestionLimit
  {
    assert StrictOrder(HigherScore);
    Take(SortBy(scored, HigherScore), SuggestionLimit)
  }

  /** The response for the recent reads `week` (last seven days) and
      `latest` (all time, newest first) over the `series` table. */
  function SuggestionsOf(week: seq<RecentRow>, latest: seq<RecentRow>, table: seq<SeriesRow>): seq<Suggestion> {
    var recent := RecentOf(week, latest);
    if recent == [] then []
    else
      var ids := IdsOf(recent);
      var userTags := UserTagsOf(TagRows(table, ids));
      if userTags == {} then []
      else
        Present(TopScored(ScoredOf(Unread(table, ids), userTags)))
  }

  /** `get_suggestions`. */
  method GetSuggestions(week: seq<RecentRow>, latest: seq<RecentRow>, table: seq<SeriesRow>) returns (result: seq<Suggestion>)
    ensures result == SuggestionsOf(week, latest, table)
  {
    var recent := week;
    if |recent| < MinRecent {
      recent := Take(latest, MinRecent);
    }
    assert recent == RecentOf(week, latest);
    if recent == [] {
      return [];
    }
    var seriesIds := IdsOf(recent);
    var userTags := CollectUserTags(TagRows(table, seriesIds));
    if userTags == {} {
      return [];
    }
    var scored := ScoreRows(Unread(table, seriesIds), userTags);
    result := BuildSuggestions(TopScored(scored));
  }

  /** The loop over `scored[:30]` building the response. */
  method BuildSuggestions(top: seq<Scored>) returns (result: seq<Suggestion>)
    ensures result == Present(top)
  {
    result := [];
    for i := 0 to |top|
      invariant |result| == i && forall j :: 0 <= j < i ==> result[j] == ToSuggestion(top[j])
    {
      result := result + [ToSuggestion(top[i])];
    }
  }

  /** With no read at all there is nothing to suggest. */
  lemma NoReadsNoSuggestions(week: seq<RecentRow>, latest: seq<RecentRow>, table: seq<SeriesRow>)
    requires week == [] && latest == []
    ensures SuggestionsOf(week, latest, table) == []
  {
  }

  /** When none of the series read has a tag there is nothing to suggest. */
  lemma NoTagsNoSuggestions(week: seq<RecentRow>, latest: seq<RecentRow>, table: seq<SeriesRow>)
    requires forall row :: row in table && row.id in IdsOf(RecentOf(week, latest)) ==> SeriesTags(row) == {}
    ensures SuggestionsOf(week, latest, table) == []
  {
    var recent := RecentOf(week, latest);
    if recent != [] {
      var rows := TagRows(table, IdsOf(recent));
      forall t ensures t !in UserTagsOf(rows) {
        UserTagsAreReadTags(rows, t);
      }
      assert UserTagsOf(rows) == {};
    }
  }

  /** The best entries: highest score first, and no entry left out scores
      higher than one kept. */
  lemma TopScoredFacts(scored: seq<Scored>)
    ensures var top := TopScored(scored);
            SortedBy(top, HigherScore)
            && (forall x :: x in top ==> x in scored)
            && (|scored| <= SuggestionLimit ==> forall x :: x in scored ==> x in top)
            && forall x, i :: x in scored && x !in top && 0 <= i < |top| ==> top[i].score >= x.score
  {
    assert StrictOrder(HigherScore);
    var sorted := SortBy(scored, HigherScore);
    var top := TopScored(scored);
    TakeSorted(sorted, SuggestionLimit, HigherScore);
    forall x | x in top ensures x in scored {
      assert x in multiset(sorted);
    }
    if |scored| <= SuggestionLimit {
      forall x | x in scored ensures x in top {
        assert x in multiset(scored);
        assert |sorted| == |multiset(sorted)| == |multiset(scored)| == |scored|;
      }
    }
    forall x, i | x in scored && x !in top && 0 <= i < |top| ensures top[i].score >= x.score {
      assert x in multiset(sorted);
      var k :| 0 <= k < |sorted| && sorted[k] == x;
      forall j | 0 <= j < |top| ensures sorted[j] != x {
        assert sorted[j] == top[j];
      }
      assert top[i] == sorted[i];
    }
  }

  /** A suggested series was not read recently, shares its matching tags
      with what was read, and scores the number of them, at least one. */
  lemma SuggestionFacts(week: seq<RecentRow>, latest: seq<RecentRow>, table: seq<SeriesRow>, s: Suggestion)
    requires s in SuggestionsOf(week, latest, table)
    ensures var recent := RecentOf(week, latest);
            s.id !in IdsOf(recent)
            && s.matchScore == |s.matchingTags| >= 1
            && exists row :: row in table && row.id == s.id
                             && s.matchingTags == UserTagsOf(TagRows(table, IdsOf(recent))) * SeriesTags(row)
  {
    var recent := RecentOf(week, latest);
    if recent != [] {
      var ids := IdsOf(recent);
      var userTags := UserTagsOf(TagRows(table, ids));
      if userTags != {} {
        var scored := ScoredOf(Unread(table, ids), userTags);
        var top := TopScored(scored);
        assert SuggestionsOf(week, latest, table) == Present(top);
        var x := PresentedFrom(top, s);
        TopScoredFacts(scored);
        assert x in scored;
        var row :| row in Unread(table, ids) && x == ScoreOf(userTags, row) && x.matches != {};
      }
    }
  }

  /** The response is ordered by score, highest first, and holds at most 30
      series. */
  lemma SuggestionsRanked(week: seq<RecentRow>, latest: seq<RecentRow>, table: seq<SeriesRow>)
    ensures var r := SuggestionsOf(week, latest, table);
            |r| <= SuggestionLimit
            && forall i, j :: 0 <= i < j < |r| ==> r[i].matchScore >= r[j].matchScore
  {
    var recent := RecentOf(week, latest);
    if recent != [] {
      var ids := IdsOf(recent);
      var userTags := UserTagsOf(TagRows(table, ids));
      if userTags != {} {
        var scored := ScoredOf(Unread(table, ids), userTags);
        TopScoredFacts(scored);
      }
    }
  }
}
