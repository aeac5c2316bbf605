/** The read-side queries of `db/series.py`: the faceted "series by tags" view,
    the chapter/volume gap report, the search-query cleaning and the filter lists. */
module SeriesQueries {
  import opened Text
  import opened Wrappers
  import opened Collections
  import opened TagTaxonomy
  import opened Comics

  // ---------------------------------------------------------------------------
  // Rows read by the facet query
  // ---------------------------------------------------------------------------

  /** `SELECT id, name, title, genres, tags, demographics, synopsis, cover_comic_id,
      total_chapters FROM series`, one row. */
  datatype FacetRow = FacetRow(
    id: nat,
    name: String,                // NOT NULL in the schema
    title: Option<String>,
    synopsis: Option<String>,
    genres: TagColumn,
    tags: TagColumn,
    demographics: TagColumn,
    cover: Option<Path>,
    totalChapters: Option<int>)

  /** One row of the comics "fan" query: a comic attached to a series. */
  datatype FanComic = FanComic(
    seriesId: Option<nat>, id: Path, volume: Option<real>, chapter: Option<real>, filename: String)

  /** One entry of the `series` list in the answer. */
  datatype MatchEntry = MatchEntry(
    id: nat, name: String, title: Option<String>, cover: Option<Path>, count: int, comics: seq<FanComic>)

  /** One `tag_counts` value: display name, number of matching series carrying the
      tag, and up to three cover ids and series names. */
  datatype TagStat = TagStat(name: String, count: nat, covers: seq<Path>, seriesNames: seq<String>)

  /** The answer of `get_series_by_tags`. */
  datatype FacetReport = FacetReport(matchingCount: nat, related: seq<TagStat>, series: seq<MatchEntry>)

  /** The tag columns as the tag cache reads them. */
  function TagRowOf(r: FacetRow): TagRow {
    TagRow(r.genres, r.tags, r.demographics)
  }

  function TagRows(rows: seq<FacetRow>): (trs: seq<TagRow>)
    ensures |trs| == |rows|
  {
    seq(|rows|, i requires 0 <= i < |rows| => TagRowOf(rows[i]))
  }

  /** All three tag columns hold valid JSON (or nothing), so `json.loads` does not raise. */
  predicate Decodes(r: FacetRow) {
    !r.genres.BadJson? && !r.tags.BadJson? && !r.demographics.BadJson?
  }

  // ---------------------------------------------------------------------------
  // The tag set of one series
  // ---------------------------------------------------------------------------

  /** `selected_norms`. */
  function SelectedNorms(selected: seq<String>): (sel: seq<String>)
    ensures |sel| == |selected|
  {
    seq(|selected|, i requires 0 <= i < |selected| => NormalizeTag(selected[i]))
  }

  /** `explicit_norms`: the normal forms of the non-empty spellings of the three columns. */
  function Explicit(r: FacetRow): set<String> {
    var ts := ColumnItems(r.genres) + ColumnItems(r.tags) + ColumnItems(r.demographics);
    set t | t in ts && t != [] :: NormalizeTag(t)
  }

  /** The tags that the containment map records as parents of some tag of `ns`. */
  function ParentsOfAll(cm: map<String, set<String>>, ns: set<String>): set<String> {
    set t, p | t in ns && p in ParentsOf(cm, t) :: p
  }

  /** `ns` with the parents of its members added: one level, not transitively. */
  function Expand(cm: map<String, set<String>>, ns: set<String>): set<String> {
    ns + ParentsOfAll(cm, ns)
  }

  function OrEmpty(s: Option<String>): String {
    if s.Some? then s.value else []
  }

  /** `metadata_text`: title, name and synopsis, lower-cased. */
  function MetaText(r: FacetRow): String {
    LowerStr(OrEmpty(r.title) + " " + r.name + " " + OrEmpty(r.synopsis))
  }

  predicate AllWordChars(w: String) {
    forall k :: 0 <= k < |w| ==> IsWordChar(w[k])
  }

  /** `text[i..j]` is a maximal run of word characters. */
  predicate IsWordRun(text: String, i: int, j: int) {
    0 <= i < j <= |text|
    && (forall k :: i <= k < j ==> IsWordChar(text[k]))
    && !WordCharAt(text, i - 1) && !WordCharAt(text, j)
  }

  /** `set(re.findall(r'\w+', text))`. */
  function MetaWords(text: String): set<String> {
    set i, j | 0 <= i < j <= |text| && IsWordRun(text, i, j) :: text[i..j]
  }

  /** The tags listed under one of `words` in the lookup index that occur in
      `text` as whole words. */
  function DetectedIn(lk: map<String, seq<String>>, text: String, words: set<String>): set<String> {
    set w, t | w in words && w in lk && t in lk[w] && ContainsWord(text, t) :: t
  }

  /** The tags found in the series' own text. */
  function Detected(lk: map<String, seq<String>>, text: String): set<String> {
    DetectedIn(lk, text, MetaWords(text))
  }

  /** `series_all_norms`: explicit tags and detected tags, each with their parents. */
  function AllNormsOf(cm: map<String, set<String>>, lk: map<String, seq<String>>, r: FacetRow): set<String> {
    Expand(cm, Explicit(r)) + Expand(cm, Detected(lk, MetaText(r)))
  }

  /** `all(sel in series_all_norms for sel in selected_norms)`. */
  predicate Matches(sel: seq<String>, ns: set<String>) {
    forall k :: 0 <= k < |sel| ==> sel[k] in ns
  }

  // ---------------------------------------------------------------------------
  // Properties of the tag set
  // ---------------------------------------------------------------------------

  /** A word of `findall(r'\w+')` is exactly a non-empty run of word characters
      that occurs in the text with a word boundary on both sides. */
  lemma MetaWordsMembers(text: String, w: String)
    ensures w in MetaWords(text) <==> w != [] && AllWordChars(w) && ContainsWord(text, w)
  {
    if w in MetaWords(text) {
      MetaWordIsWord(text, w);
    }
    if w != [] && AllWordChars(w) && ContainsWord(text, w) {
      WordIsMetaWord(text, w);
    }
  }

  lemma MetaWordIsWord(text: String, w: String)
    requires w in MetaWords(text)
    ensures w != [] && AllWordChars(w) && ContainsWord(text, w)
  {
    var i, j :| 0 <= i < j <= |text| && IsWordRun(text, i, j) && text[i..j] == w;
    assert OccursAt(text, w, i);
    assert WordCharAt(text, i) && WordCharAt(text, j - 1);
  }

  lemma WordIsMetaWord(text: String, w: String)
    requires w != [] && AllWordChars(w) && ContainsWord(text, w)
    ensures w in MetaWords(text)
  {
    var i :| 0 <= i <= |text| - |w| && OccursAt(text, w, i) && Boundary(text, i) && Boundary(text, i + |w|);
    var j := i + |w|;
    assert text[i..j] == w;
    forall k | i <= k < j ensures IsWordChar(text[k]) {
      assert text[k] == w[k - i];
    }
    assert WordCharAt(text, i) && WordCharAt(text, j - 1);
    assert !WordCharAt(text, i - 1) && !WordCharAt(text, j);
    assert IsWordRun(text, i, j);
  }

  /** With the lookup index built from `norms`, a tag is found in the text iff it
      is a known tag of three or more characters, it occurs in the text as whole
      words, and its first word is itself one of the text's `\w+` words. */
  lemma DetectedMembers(norms: seq<String>, text: String, t: String)
    ensures t in Detected(Lookup(norms), text) <==>
              t in norms && |t| >= 3 && TagTaxonomy.FirstWord(t) in MetaWords(text) && ContainsWord(text, t)
  {
    var lk := Lookup(norms);
    LookupMembers(norms, TagTaxonomy.FirstWord(t), t);
    if t in Detected(lk, text) {
      var w :| w in MetaWords(text) && w in lk && t in lk[w] && ContainsWord(text, t);
      LookupMembers(norms, w, t);
    }
  }

  /** A tag whose first word holds a character outside `\w` (such as "sci-fi") is
      never found in the text, however the text is written: the lookup key is
      never one of the text's `\w+` words. */
  lemma PunctuatedFirstWordNeverDetected(norms: seq<String>, text: String, t: String, k: nat)
    requires k < |TagTaxonomy.FirstWord(t)| && !IsWordChar(TagTaxonomy.FirstWord(t)[k])
    ensures t !in Detected(Lookup(norms), text)
  {
    DetectedMembers(norms, text, t);
    MetaWordsMembers(text, TagTaxonomy.FirstWord(t));
  }

  /** Every tag of a series' explicit columns is in its tag set, together with
      the tags the containment map lists as its parents. */
  lemma ExplicitAndParentsIncluded(cm: map<String, set<String>>, lk: map<String, seq<String>>,
                                   r: FacetRow, t: String, p: String)
    requires t in ColumnItems(r.genres) + ColumnItems(r.tags) + ColumnItems(r.demographics) && t != []
    requires p in ParentsOf(cm, NormalizeTag(t))
    ensures NormalizeTag(t) in AllNormsOf(cm, lk, r) && p in AllNormsOf(cm, lk, r)
  {
    assert NormalizeTag(t) in Explicit(r);
    assert p in ParentsOfAll(cm, Explicit(r));
  }

  /** With no tag selected, every series matches. */
  lemma NothingSelectedMatchesAll(ns: set<String>)
    ensures Matches(SelectedNorms([]), ns)
  {
  }

  // ---------------------------------------------------------------------------
  // Computing the tag set
  // ---------------------------------------------------------------------------

  lemma ParentsOfAllAdd(cm: map<String, set<String>>, ns: set<String>, t: String)
    ensures ParentsOfAll(cm, ns + {t}) == ParentsOfAll(cm, ns) + ParentsOf(cm, t)
  {
  }

  lemma DetectedInAdd(lk: map<String, seq<String>>, text: String, words: set<String>, w: String)
    ensures DetectedIn(lk, text, words + {w}) ==
              DetectedIn(lk, text, words) + DetectedIn(lk, text, {w})
  {
  }

  /** `series_all_norms` as the loops of `get_series_by_tags` build it. */
  method CollectNorms(cm: map<String, set<String>>, lk: map<String, seq<String>>, r: FacetRow)
    returns (ns: set<String>)
    ensures ns == AllNormsOf(cm, lk, r)
  {
    var explicit := ExpandEach(cm, Explicit(r));
    var text := MetaText(r);
    var found := DetectTags(cm, lk, text, MetaWords(text));
    ns := explicit + found;
  }

  /** `for t in list(series_all_norms): series_all_norms.update(containment_map.get(t, []))`. */
  method ExpandEach(cm: map<String, set<String>>, ns0: set<String>) returns (ns: set<String>)
    ensures ns == Expand(cm, ns0)
  {
    ns := ns0;
    var todo := ns0;
    while todo != {}
      invariant todo <= ns0
      invariant ns == ns0 + ParentsOfAll(cm, ns0 - todo)
      decreases |todo|
    {
      var t :| t in todo;
      ExpandEachStep(cm, ns0, todo, t);
      ns := ns + ParentsOf(cm, t);
      todo := todo - {t};
    }
    assert ns0 - todo == ns0;
  }

  lemma ExpandEachStep(cm: map<String, set<String>>, ns0: set<String>, todo: set<String>, t: String)
    requires t in todo && todo <= ns0
    ensures ns0 + ParentsOfAll(cm, ns0 - todo) + ParentsOf(cm, t) == ns0 + ParentsOfAll(cm, ns0 - (todo - {t}))
  {
    assert ns0 - (todo - {t}) == (ns0 - todo) + {t};
    ParentsOfAllAdd(cm, ns0 - todo, t);
  }

  lemma DetectedInOne(lk: map<String, seq<String>>, text: String, w: String)
    ensures DetectedIn(lk, text, {w}) ==
              if w in lk then (set t | t in lk[w] && ContainsWord(text, t)) else {}
  {
  }

  lemma DetectStep(cm: map<String, set<String>>, lk: map<String, seq<String>>, text: String,
                   all: set<String>, words: set<String>, w: String, more: set<String>)
    requires w in words && words <= all
    requires more == if w in lk then Expand(cm, set t | t in lk[w] && ContainsWord(text, t)) else {}
    ensures Expand(cm, DetectedIn(lk, text, all - words)) + more == Expand(cm, DetectedIn(lk, text, all - (words - {w})))
  {
    var seen := all - words;
    assert seen + {w} == all - (words - {w});
    DetectedInOne(lk, text, w);
    DetectedInAdd(lk, text, seen, w);
    ParentsOfAllUnion(cm, DetectedIn(lk, text, seen), DetectedIn(lk, text, {w}));
  }

  /** The loop over `meta_words`: the tags listed under each word that occur in
      the text as whole words, with their parents. */
  method DetectTags(cm: map<String, set<String>>, lk: map<String, seq<String>>, text: String,
                    metaWords: set<String>)
    returns (ns: set<String>)
    ensures ns == Expand(cm, DetectedIn(lk, text, metaWords))
  {
    ns := {};
    var words := metaWords;
    ghost var all := words;
    assert DetectedIn(lk, text, all - words) == {};
    while words != {}
      invariant words <= all
      invariant ns == Expand(cm, DetectedIn(lk, text, all - words))
      decreases |words|
    {
      var w :| w in words;
      var more := WordTags(cm, lk, text, w);
      DetectStep(cm, lk, text, all, words, w, more);
      ns := ns + more;
      words := words - {w};
    }
    assert all - words == metaWords;
  }

  /** One pass of that loop: the tags listed under `w` found in the text, with their parents. */
  method WordTags(cm: map<String, set<String>>, lk: map<String, seq<String>>, text: String, w: String)
    returns (more: set<String>)
    ensures more == if w in lk then Expand(cm, set t | t in lk[w] && ContainsWord(text, t)) else {}
  {
    more := {};
    if w in lk {
      more := MatchWord(cm, lk[w], text);
    }
  }

  lemma ParentsOfAllUnion(cm: map<String, set<String>>, a: set<String>, b: set<String>)
    ensures Expand(cm, a + b) == Expand(cm, a) + Expand(cm, b)
  {
  }

  /** The inner loop over the tags listed under one word. */
  method MatchWord(cm: map<String, set<String>>, candidates: seq<String>, text: String)
    returns (added: set<String>)
    ensures added == Expand(cm, set t | t in candidates && ContainsWord(text, t))
  {
    added := {};
    var i := 0;
    while i < |candidates|
      invariant 0 <= i <= |candidates|
      invariant added == Expand(cm, set t | t in candidates[..i] && ContainsWord(text, t))
    {
      var t := candidates[i];
      if Contains(text, t) && ContainsWord(text, t) {
        added := added + {t} + ParentsOf(cm, t);
      }
      assert candidates[..i + 1] == candidates[..i] + [t];
      i := i + 1;
    }
    assert candidates[..i] == candidates;
  }

  // ---------------------------------------------------------------------------
  // The comics shown with each matching series
  // ---------------------------------------------------------------------------

  /** The fan query's sort key for the volume: NULL and 0 sort as 999999. */
  function VolumeKey(c: FanComic): real {
    if c.volume.None? || c.volume.value == 0.0 then 999999.0 else c.volume.value
  }

  /** `COALESCE(chapter, 0)`. */
  function ChapterKey(c: FanComic): real {
    if c.chapter.Some? then c.chapter.value else 0.0
  }

  /** `ORDER BY` volume key, then chapter key, then filename. */
  predicate FanLess(a: FanComic, b: FanComic) {
    VolumeKey(a) < VolumeKey(b)
    || (VolumeKey(a) == VolumeKey(b) && ChapterKey(a) < ChapterKey(b))
    || (VolumeKey(a) == VolumeKey(b) && ChapterKey(a) == ChapterKey(b) && LexLess(a.filename, b.filename))
  }

  lemma FanLessIsStrictOrder()
    ensures StrictOrder(FanLess)
  {
    forall a: FanComic ensures !FanLess(a, a) {
      LexLessIrreflexive(a.filename);
    }
    forall a: FanComic, b: FanComic, c: FanComic | FanLess(a, b) && FanLess(b, c) ensures FanLess(a, c) {
      if LexLess(a.filename, b.filename) && LexLess(b.filename, c.filename) {
        LexLessTransitive(a.filename, b.filename, c.filename);
      }
    }
  }

  /** The comics of one series, in the order the query returned them. */
  function ComicsOf(comics: seq<FanComic>, id: nat): (cs: seq<FanComic>)
    ensures forall k :: 0 <= k < |cs| ==> cs[k] in comics && cs[k].seriesId == Some(id)
    ensures forall c :: c in comics && c.seriesId == Some(id) ==> c in cs
    decreases |comics|
  {
    if comics == [] then []
    else
      var init := ComicsOf(comics[..|comics| - 1], id);
      var last := comics[|comics| - 1];
      assert forall c :: c in comics ==> c in comics[..|comics| - 1] || c == last by {
        assert comics == comics[..|comics| - 1] + [last];
      }
      if last.seriesId == Some(id) then init + [last] else init
  }

  /** `comics_by_series.get(id, [])`: the first three comics of the series in the
      window's order (`rn <= 3`). */
  function Fan(comics: seq<FanComic>, id: nat): (r: seq<FanComic>)
    ensures |r| <= 3
  {
    FanLessIsStrictOrder();
    Take(SortBy(ComicsOf(comics, id), FanLess), 3)
  }

  /** A series shows at most three of its own comics, in fan order, and no comic
      of the series that sorts before a shown one is left out. */
  lemma FanIsFirstThree(comics: seq<FanComic>, id: nat)
    ensures |Fan(comics, id)| <= 3
    ensures |ComicsOf(comics, id)| >= 3 ==> |Fan(comics, id)| == 3
    ensures forall c :: c in Fan(comics, id) ==> c in comics && c.seriesId == Some(id)
    ensures SortedBy(Fan(comics, id), FanLess)
    ensures forall x, y :: x in Fan(comics, id) && y in comics && y.seriesId == Some(id) && FanLess(y, x) ==>
              y in Fan(comics, id)
  {
    FanLessIsStrictOrder();
    var own := ComicsOf(comics, id);
    var sorted := SortBy(own, FanLess);
    var fan := Take(sorted, 3);
    assert |sorted| == |own| by {
      assert |multiset(sorted)| == |multiset(own)|;
    }
    forall c | c in fan ensures c in comics && c.seriesId == Some(id) {
      assert c in multiset(sorted);
      assert c in multiset(own);
    }
    forall x, y | x in fan && y in comics && y.seriesId == Some(id) && FanLess(y, x) ensures y in fan {
      var i :| 0 <= i < |fan| && fan[i] == x;
      assert y in multiset(own);
      assert y in multiset(sorted);
      var j :| 0 <= j < |sorted| && sorted[j] == y;
      if j < |fan| {
        assert fan[j] == y;
      }
    }
  }

  // ---------------------------------------------------------------------------
  // Matching series and related tags
  // ---------------------------------------------------------------------------

  /** The tag cache contents and the normalised selection a query runs with. */
  datatype FacetCtx = FacetCtx(
    st: map<String, String>, cm: map<String, set<String>>, lk: map<String, seq<String>>, sel: seq<String>)

  /** A series row with its tag set `series_all_norms`. */
  datatype Tagged = Tagged(row: FacetRow, norms: set<String>)

  /** The rows with their tag sets, in query order. */
  function TagAll(ctx: FacetCtx, rows: seq<FacetRow>): (ts: seq<Tagged>)
    ensures |ts| == |rows|
    ensures forall i :: 0 <= i < |rows| ==> ts[i] == Tagged(rows[i], AllNormsOf(ctx.cm, ctx.lk, rows[i]))
  {
    seq(|rows|, i requires 0 <= i < |rows| => Tagged(rows[i], AllNormsOf(ctx.cm, ctx.lk, rows[i])))
  }

  predicate IsMatch(sel: seq<String>, t: Tagged) {
    Matches(sel, t.norms)
  }

  /** `series['title'] or series['name']`. */
  function ShownName(r: FacetRow): String {
    if r.title.Some? && r.title.value != [] then r.title.value else r.name
  }

  /** `all_system_tags.get(tag_norm, tag_norm)`. */
  function DisplayOf(st: map<String, String>, n: String): String {
    if n in st then st[n] else n
  }

  /** `series['total_chapters'] or 0`. */
  function ChapterCount(r: FacetRow): int {
    if r.totalChapters.Some? then r.totalChapters.value else 0
  }

  function EntryOf(r: FacetRow, comics: seq<FanComic>): MatchEntry {
    MatchEntry(r.id, r.name, r.title, r.cover, ChapterCount(r), Fan(comics, r.id))
  }

  /** `matching_series`: the matching rows in query order. */
  function Entries(sel: seq<String>, ts: seq<Tagged>, comics: seq<FanComic>): seq<MatchEntry>
    decreases |ts|
  {
    if ts == [] then []
    else
      var t := ts[|ts| - 1];
      Entries(sel, ts[..|ts| - 1], comics) + (if IsMatch(sel, t) then [EntryOf(t.row, comics)] else [])
  }

  /** One more matching series carrying the tag. */
  function Bump(d: TagStat, r: FacetRow): TagStat {
    TagStat(d.name, d.count + 1,
            if |d.covers| < 3 && r.cover.Some? then d.covers + [r.cover.value] else d.covers,
            if |d.seriesNames| < 3 then d.seriesNames + [ShownName(r)] else d.seriesNames)
  }

  /** The entry for `n`, or the fresh one the source creates on first sight. */
  function Current(tc: map<String, TagStat>, st: map<String, String>, n: String): TagStat {
    if n in tc then tc[n] else TagStat(DisplayOf(st, n), 0, [], [])
  }

  /** `n` is counted for a matching series with tag set `ns`. */
  predicate Counted(sel: seq<String>, ns: set<String>, n: String) {
    n in ns && n !in sel
  }

  /** `tag_counts` after the inner loop over one matching series' tags. */
  function TallySeries(tc: map<String, TagStat>, st: map<String, String>, sel: seq<String>,
                       ns: set<String>, r: FacetRow): map<String, TagStat>
  {
    map n | n in tc.Keys + (set m | m in ns && m !in sel) ::
      if Counted(sel, ns, n) then Bump(Current(tc, st, n), r) else tc[n]
  }

  /** `tag_counts` after the rows. */
  function Stats(st: map<String, String>, sel: seq<String>, ts: seq<Tagged>): map<String, TagStat>
    decreases |ts|
  {
    if ts == [] then map[]
    else
      var before := Stats(st, sel, ts[..|ts| - 1]);
      var t := ts[|ts| - 1];
      if IsMatch(sel, t) then TallySeries(before, st, sel, t.norms, t.row) else before
  }

  /** The matching rows whose tag set holds `n`, in query order. */
  function Carriers(sel: seq<String>, ts: seq<Tagged>, n: String): seq<FacetRow>
    decreases |ts|
  {
    if ts == [] then []
    else
      var t := ts[|ts| - 1];
      Carriers(sel, ts[..|ts| - 1], n) + (if IsMatch(sel, t) && n in t.norms then [t.row] else [])
  }

  /** The non-empty cover ids of `rs`, in order. */
  function CoversOf(rs: seq<FacetRow>): seq<Path>
    decreases |rs|
  {
    if rs == [] then []
    else
      var r := rs[|rs| - 1];
      CoversOf(rs[..|rs| - 1]) + (if r.cover.Some? then [r.cover.value] else [])
  }

  function NamesOf(rs: seq<FacetRow>): seq<String>
    decreases |rs|
  {
    if rs == [] then [] else NamesOf(rs[..|rs| - 1]) + [ShownName(rs[|rs| - 1])]
  }

  /** What the source promises of one related tag, stated over the matching
      series directly. */
  function ExpectedStat(st: map<String, String>, sel: seq<String>, ts: seq<Tagged>, n: String): TagStat {
    var cs := Carriers(sel, ts, n);
    TagStat(DisplayOf(st, n), |cs|, Take(CoversOf(cs), 3), Take(NamesOf(cs), 3))
  }

  lemma TallySeriesAt(tc: map<String, TagStat>, st: map<String, String>, sel: seq<String>,
                      ns: set<String>, r: FacetRow, n: String)
    ensures n in TallySeries(tc, st, sel, ns, r) <==> n in tc || Counted(sel, ns, n)
    ensures n in TallySeries(tc, st, sel, ns, r) ==>
              TallySeries(tc, st, sel, ns, r)[n] == if Counted(sel, ns, n) then Bump(Current(tc, st, n), r) else tc[n]
  {
  }

  lemma CoversSnoc(cs: seq<FacetRow>, r: FacetRow)
    ensures Take(CoversOf(cs + [r]), 3) ==
              if |Take(CoversOf(cs), 3)| < 3 && r.cover.Some? then Take(CoversOf(cs), 3) + [r.cover.value]
              else Take(CoversOf(cs), 3)
  {
    assert (cs + [r])[..|cs|] == cs;
    if r.cover.Some? {
      TakeSnoc(CoversOf(cs), r.cover.value, 3);
    } else {
      assert CoversOf(cs + [r]) == CoversOf(cs);
    }
  }

  lemma NamesSnoc(cs: seq<FacetRow>, r: FacetRow)
    ensures Take(NamesOf(cs + [r]), 3) ==
              if |Take(NamesOf(cs), 3)| < 3 then Take(NamesOf(cs), 3) + [ShownName(r)] else Take(NamesOf(cs), 3)
  {
    assert (cs + [r])[..|cs|] == cs;
    TakeSnoc(NamesOf(cs), ShownName(r), 3);
  }

  /** The expected entry after one more series that carries the tag. */
  lemma ExpectedSnoc(st: map<String, String>, sel: seq<String>, ts: seq<Tagged>, n: String)
    requires ts != [] && IsMatch(sel, ts[|ts| - 1]) && n in ts[|ts| - 1].norms
    ensures ExpectedStat(st, sel, ts, n) ==
              Bump(if Carriers(sel, ts[..|ts| - 1], n) != [] then ExpectedStat(st, sel, ts[..|ts| - 1], n)
                   else TagStat(DisplayOf(st, n), 0, [], []), ts[|ts| - 1].row)
  {
    var init, r := ts[..|ts| - 1], ts[|ts| - 1].row;
    var cs := Carriers(sel, init, n);
    assert Carriers(sel, ts, n) == cs + [r];
    CoversSnoc(cs, r);
    NamesSnoc(cs, r);
  }

  /** The related-tag entry of `n` exists iff `n` is not selected and some
      matching series carries it; it then counts those series once each, shows
      the display spelling, and keeps the first three covers (skipping series
      without one) and the first three names. */
  lemma {:induction false} StatsReference(st: map<String, String>, sel: seq<String>, ts: seq<Tagged>, n: String)
    ensures n in Stats(st, sel, ts) <==> n !in sel && Carriers(sel, ts, n) != []
    ensures n in Stats(st, sel, ts) ==> Stats(st, sel, ts)[n] == ExpectedStat(st, sel, ts, n)
    decreases |ts|
  {
    if ts != [] {
      var init, t := ts[..|ts| - 1], ts[|ts| - 1];
      StatsReference(st, sel, init, n);
      if IsMatch(sel, t) {
        TallySeriesAt(Stats(st, sel, init), st, sel, t.norms, t.row, n);
        if Counted(sel, t.norms, n) {
          ExpectedSnoc(st, sel, ts, n);
        } else if n !in t.norms {
          assert Carriers(sel, ts, n) == Carriers(sel, init, n);
        }
      } else {
        assert Carriers(sel, ts, n) == Carriers(sel, init, n);
      }
    }
  }

  /** Every related entry counts at least one series, and shows at most three
      covers and at most three names, no more than it counts. */
  lemma RelatedSamplesBounded(st: map<String, String>, sel: seq<String>, ts: seq<Tagged>, n: String)
    requires n in Stats(st, sel, ts)
    ensures 1 <= Stats(st, sel, ts)[n].count
    ensures |Stats(st, sel, ts)[n].covers| <= 3 && |Stats(st, sel, ts)[n].covers| <= Stats(st, sel, ts)[n].count
    ensures |Stats(st, sel, ts)[n].seriesNames| == if Stats(st, sel, ts)[n].count < 3 then Stats(st, sel, ts)[n].count else 3
  {
    StatsReference(st, sel, ts, n);
    var cs := Carriers(sel, ts, n);
    CoversShorter(cs);
    NamesLength(cs);
  }

  lemma {:induction false} CoversShorter(rs: seq<FacetRow>)
    ensures |CoversOf(rs)| <= |rs|
    decreases |rs|
  {
    if rs != [] { CoversShorter(rs[..|rs| - 1]); }
  }

  lemma {:induction false} NamesLength(rs: seq<FacetRow>)
    ensures |NamesOf(rs)| == |rs|
    decreases |rs|
  {
    if rs != [] { NamesLength(rs[..|rs| - 1]); }
  }

  /** With nothing selected, every series is listed. */
  lemma {:induction false} NothingSelectedListsAll(ts: seq<Tagged>, comics: seq<FanComic>)
    ensures |Entries([], ts, comics)| == |ts|
    decreases |ts|
  {
    if ts != [] { NothingSelectedListsAll(ts[..|ts| - 1], comics); }
  }

  /** A listed series matches the selection, and every matching row is listed. */
  lemma {:induction false} EntriesAreMatches(sel: seq<String>, ts: seq<Tagged>, comics: seq<FanComic>)
    ensures forall e :: e in Entries(sel, ts, comics) ==>
              exists t :: t in ts && IsMatch(sel, t) && e == EntryOf(t.row, comics)
    ensures forall t :: t in ts && IsMatch(sel, t) ==> EntryOf(t.row, comics) in Entries(sel, ts, comics)
    decreases |ts|
  {
    if ts != [] {
      var init, last := ts[..|ts| - 1], ts[|ts| - 1];
      EntriesAreMatches(sel, init, comics);
      assert forall t :: t in ts ==> t in init || t == last by {
        assert ts == init + [last];
      }
    }
  }

  // ---------------------------------------------------------------------------
  // Ranking the related tags
  // ---------------------------------------------------------------------------

  /** The sort key `(-count, name)`: more series first, then by name. */
  predicate RankLess(a: TagStat, b: TagStat) {
    a.count > b.count || (a.count == b.count && LexLess(a.name, b.name))
  }

  lemma RankLessIsStrictOrder()
    ensures StrictOrder(RankLess)
  {
    forall a: TagStat ensures !RankLess(a, a) {
      LexLessIrreflexive(a.name);
    }
    forall a: TagStat, b: TagStat, c: TagStat | RankLess(a, b) && RankLess(b, c) ensures RankLess(a, c) {
      if LexLess(a.name, b.name) && LexLess(b.name, c.name) {
        LexLessTransitive(a.name, b.name, c.name);
      }
    }
  }

  /** The entries of `tc` in the order of `keys`. */
  function ValuesAt(tc: map<String, TagStat>, keys: seq<String>): (vs: seq<TagStat>)
    requires forall k :: 0 <= k < |keys| ==> keys[k] in tc
    ensures |vs| == |keys| && forall k :: 0 <= k < |keys| ==> vs[k] == tc[keys[k]]
  {
    seq(|keys|, i requires 0 <= i < |keys| => tc[keys[i]])
  }

  /** No two related tags share a display name. */
  predicate NamesDistinct(tc: map<String, TagStat>) {
    forall m, n :: m in tc && n in tc && m != n ==> tc[m].name != tc[n].name
  }

  /** `related_tags_list`: the entries of `tag_counts` in the dict's order, then
      sorted by `(-count, name)`. */
  method Rank(tc: map<String, TagStat>) returns (related: seq<TagStat>, ghost keys: seq<String>)
    ensures Distinct(keys) && Elems(keys) == tc.Keys
    ensures SortedBy(related, RankLess)
    ensures multiset(related) == multiset(ValuesAt(tc, keys))
  {
    var values;
    values, keys := DictOrder(tc);
    RankLessIsStrictOrder();
    related := SortBy(values, RankLess);
  }

  /** `list(tag_counts.values())`: the entries in some order of their keys. */
  method DictOrder(tc: map<String, TagStat>) returns (values: seq<TagStat>, ghost keys: seq<String>)
    ensures Distinct(keys) && Elems(keys) == tc.Keys
    ensures forall k :: 0 <= k < |keys| ==> keys[k] in tc
    ensures values == ValuesAt(tc, keys)
  {
    values := [];
    keys := [];
    var todo := tc.Keys;
    while todo != {}
      invariant todo <= tc.Keys && Elems(keys) == tc.Keys - todo
      invariant Distinct(keys) && forall k :: 0 <= k < |keys| ==> keys[k] in tc
      invariant values == ValuesAt(tc, keys)
      decreases |todo|
    {
      var n :| n in todo;
      KeyStep(tc, keys, todo, n);
      values := values + [tc[n]];
      keys := keys + [n];
      todo := todo - {n};
    }
  }

  lemma KeyStep(tc: map<String, TagStat>, keys: seq<String>, todo: set<String>, n: String)
    requires n in todo && todo <= tc.Keys && Elems(keys) == tc.Keys - todo
    requires Distinct(keys) && forall k :: 0 <= k < |keys| ==> keys[k] in tc
    ensures Elems(keys + [n]) == tc.Keys - (todo - {n})
    ensures Distinct(keys + [n]) && forall k :: 0 <= k < |keys| + 1 ==> (keys + [n])[k] in tc
    ensures ValuesAt(tc, keys + [n]) == ValuesAt(tc, keys) + [tc[n]]
  {
    assert Elems(keys + [n]) == Elems(keys) + {n};
    assert n !in Elems(keys);
  }

  lemma {:induction false} DistinctBag<T>(xs: seq<T>)
    requires Distinct(xs)
    ensures multiset(xs) == multiset(Elems(xs))
    decreases |xs|
  {
    if xs != [] {
      var init, last := xs[..|xs| - 1], xs[|xs| - 1];
      DistinctBag(init);
      assert xs == init + [last];
      assert Elems(xs) == Elems(init) + {last};
      assert last !in Elems(init);
    }
  }

  lemma ValuesBag(tc: map<String, TagStat>, keys: seq<String>)
    requires NamesDistinct(tc) && Distinct(keys) && Elems(keys) == tc.Keys
    ensures multiset(ValuesAt(tc, keys)) == multiset(tc.Values)
  {
    var vs := ValuesAt(tc, keys);
    forall i, j | 0 <= i < j < |vs| ensures vs[i] != vs[j] {
      assert tc[keys[i]].name != tc[keys[j]].name;
    }
    DistinctBag(vs);
    forall v | v in tc.Values ensures v in Elems(vs) {
      var n :| n in tc && tc[n] == v;
      assert n in Elems(keys);
      var i :| 0 <= i < |keys| && keys[i] == n;
      assert vs[i] == v;
    }
    assert Elems(vs) == tc.Values;
  }

  /** When display names are distinct the ranked list does not depend on the
      order in which the tags were first met: any two runs give the same list. */
  lemma RankingIsUnique(tc: map<String, TagStat>, k1: seq<String>, k2: seq<String>,
                        a: seq<TagStat>, b: seq<TagStat>)
    requires NamesDistinct(tc)
    requires Distinct(k1) && Elems(k1) == tc.Keys && Distinct(k2) && Elems(k2) == tc.Keys
    requires SortedBy(a, RankLess) && multiset(a) == multiset(ValuesAt(tc, k1))
    requires SortedBy(b, RankLess) && multiset(b) == multiset(ValuesAt(tc, k2))
    ensures a == b
  {
    ValuesBag(tc, k1);
    ValuesBag(tc, k2);
    forall x, y | x in a && y in a && x != y ensures RankLess(x, y) || RankLess(y, x) {
      assert x in multiset(tc.Values) && y in multiset(tc.Values);
      var m :| m in tc && tc[m] == x;
      var n :| n in tc && tc[n] == y;
      LexLessTotal(x.name, y.name);
    }
    SortedUnique(a, b, RankLess);
  }

  // ---------------------------------------------------------------------------
  // Display names of the related tags are distinct
  // ---------------------------------------------------------------------------

  predicate NormalForm(n: String) {
    NormalizeTag(n) == n
  }

  lemma SystemTagKeyNormal(rows: seq<TagRow>, n: String)
    requires n in SystemTags(rows)
    ensures NormalForm(n)
  {
    DisplayNormalises(rows, n);
    NormalizeTagIdempotent(SystemTags(rows)[n]);
  }

  /** Every tag in a series' tag set is already in normal form, when the cache
      was built from the series table. */
  lemma NormsAreNormal(rows0: seq<TagRow>, r: FacetRow, n: String)
    requires n in AllNormsOf(Containment(AllNorms(rows0)), Lookup(AllNorms(rows0)), r)
    ensures NormalForm(n)
  {
    var norms := AllNorms(rows0);
    var cm, lk := Containment(norms), Lookup(norms);
    var found := Detected(lk, MetaText(r));
    if n in Explicit(r) {
      ExplicitNormal(r, n);
    } else if n in found {
      DetectedNormal(rows0, MetaText(r), n);
    } else {
      assert n in ParentsOfAll(cm, Explicit(r)) || n in ParentsOfAll(cm, found);
      var t :| n in ParentsOf(cm, t);
      ParentNormal(rows0, t, n);
    }
  }

  lemma ExplicitNormal(r: FacetRow, n: String)
    requires n in Explicit(r)
    ensures NormalForm(n)
  {
    var t :| t in ColumnItems(r.genres) + ColumnItems(r.tags) + ColumnItems(r.demographics) && t != [] && n == NormalizeTag(t);
    NormalizeTagIdempotent(t);
  }

  lemma ParentNormal(rows0: seq<TagRow>, t: String, n: String)
    requires n in ParentsOf(Containment(AllNorms(rows0)), t)
    ensures NormalForm(n)
  {
    ParentsInMembers(AllNorms(rows0), t, n);
    SystemTagKeyNormal(rows0, n);
  }

  lemma DetectedNormal(rows0: seq<TagRow>, text: String, n: String)
    requires n in Detected(Lookup(AllNorms(rows0)), text)
    ensures NormalForm(n)
  {
    var lk := Lookup(AllNorms(rows0));
    var w :| w in MetaWords(text) && w in lk && n in lk[w] && ContainsWord(text, n);
    LookupMembers(AllNorms(rows0), w, n);
    SystemTagKeyNormal(rows0, n);
  }

  lemma {:induction false} CarrierHasTag(sel: seq<String>, ts: seq<Tagged>, n: String)
    requires Carriers(sel, ts, n) != []
    ensures exists i :: 0 <= i < |ts| && n in ts[i].norms
    decreases |ts|
  {
    var init := ts[..|ts| - 1];
    if Carriers(sel, init, n) != [] {
      CarrierHasTag(sel, init, n);
      var i :| 0 <= i < |init| && n in init[i].norms;
      assert ts[i] == init[i];
    } else {
      assert n in ts[|ts| - 1].norms;
    }
  }

  /** With the cache built from the series table, no two related tags share a
      display name, so the `(-count, name)` order has no ties. */
  lemma StatsNamesDistinct(rows0: seq<TagRow>, sel: seq<String>, rows: seq<FacetRow>)
    ensures NamesDistinct(Stats(SystemTags(rows0), sel,
                                TagAll(FacetCtx(SystemTags(rows0), Containment(AllNorms(rows0)),
                                                Lookup(AllNorms(rows0)), sel), rows)))
  {
    var st := SystemTags(rows0);
    var ctx := FacetCtx(st, Containment(AllNorms(rows0)), Lookup(AllNorms(rows0)), sel);
    var ts := TagAll(ctx, rows);
    var tc := Stats(st, sel, ts);
    forall n | n in tc ensures NormalizeTag(tc[n].name) == n {
      StatsReference(st, sel, ts, n);
      CarrierHasTag(sel, ts, n);
      var i :| 0 <= i < |ts| && n in ts[i].norms;
      NormsAreNormal(rows0, rows[i], n);
      if n in st {
        DisplayNormalises(rows0, n);
      }
    }
  }

  // ---------------------------------------------------------------------------
  // The query
  // ---------------------------------------------------------------------------

  lemma TallyAddOne(tc0: map<String, TagStat>, st: map<String, String>, sel: seq<String>,
                    done: set<String>, r: FacetRow, n: String)
    requires n !in done
    ensures TallySeries(tc0, st, sel, done + {n}, r) ==
              if n in sel then TallySeries(tc0, st, sel, done, r)
              else TallySeries(tc0, st, sel, done, r)[n := Bump(Current(TallySeries(tc0, st, sel, done, r), st, n), r)]
  {
    var before := TallySeries(tc0, st, sel, done, r);
    var after := TallySeries(tc0, st, sel, done + {n}, r);
    var wanted := if n in sel then before else before[n := Bump(Current(before, st, n), r)];
    forall m ensures m in after <==> m in wanted {
      TallySeriesAt(tc0, st, sel, done, r, m);
      TallySeriesAt(tc0, st, sel, done + {n}, r, m);
    }
    forall m | m in after ensures after[m] == wanted[m] {
      TallySeriesAt(tc0, st, sel, done, r, m);
      TallySeriesAt(tc0, st, sel, done + {n}, r, m);
    }
  }

  /** The inner loop over one matching series' tags. */
  method TallyTags(tc0: map<String, TagStat>, st: map<String, String>, sel: seq<String>,
                   ns: set<String>, r: FacetRow) returns (tc: map<String, TagStat>)
    ensures tc == TallySeries(tc0, st, sel, ns, r)
  {
    tc := tc0;
    var todo := ns;
    assert TallySeries(tc0, st, sel, {}, r) == tc0;
    while todo != {}
      invariant todo <= ns
      invariant tc == TallySeries(tc0, st, sel, ns - todo, r)
      decreases |todo|
    {
      var n :| n in todo;
      TallyAddOne(tc0, st, sel, ns - todo, r, n);
      assert (ns - todo) + {n} == ns - (todo - {n});
      if n !in sel {
        tc := tc[n := Bump(Current(tc, st, n), r)];
      }
      todo := todo - {n};
    }
    assert ns - todo == ns;
  }

  lemma RowStep(ctx: FacetCtx, rows: seq<FacetRow>, comics: seq<FanComic>, i: nat, ns: set<String>)
    requires i < |rows| && ns == AllNormsOf(ctx.cm, ctx.lk, rows[i])
    ensures Entries(ctx.sel, TagAll(ctx, rows)[..i + 1], comics) ==
              Entries(ctx.sel, TagAll(ctx, rows)[..i], comics)
              + (if Matches(ctx.sel, ns) then [EntryOf(rows[i], comics)] else [])
    ensures Stats(ctx.st, ctx.sel, TagAll(ctx, rows)[..i + 1]) ==
              if Matches(ctx.sel, ns) then TallySeries(Stats(ctx.st, ctx.sel, TagAll(ctx, rows)[..i]), ctx.st, ctx.sel, ns, rows[i])
              else Stats(ctx.st, ctx.sel, TagAll(ctx, rows)[..i])
  {
    var ts := TagAll(ctx, rows);
    assert ts[..i + 1][..i] == ts[..i] && ts[..i + 1][i] == Tagged(rows[i], ns);
  }

  /** The loop over the series rows: `matching_series` and `tag_counts`. */
  method TallyRows(ctx: FacetCtx, rows: seq<FacetRow>, comics: seq<FanComic>)
    returns (matching: seq<MatchEntry>, tc: map<String, TagStat>)
    ensures matching == Entries(ctx.sel, TagAll(ctx, rows), comics)
    ensures tc == Stats(ctx.st, ctx.sel, TagAll(ctx, rows))
  {
    ghost var ts := TagAll(ctx, rows);
    matching := [];
    tc := map[];
    var i := 0;
    while i < |rows|
      invariant 0 <= i <= |rows|
      invariant matching == Entries(ctx.sel, ts[..i], comics)
      invariant tc == Stats(ctx.st, ctx.sel, ts[..i])
    {
      var r := rows[i];
      var ns := CollectNorms(ctx.cm, ctx.lk, r);
      RowStep(ctx, rows, comics, i, ns);
      if Matches(ctx.sel, ns) {
        matching := matching + [EntryOf(r, comics)];
        tc := TallyTags(tc, ctx.st, ctx.sel, ns, r);
      }
      i := i + 1;
    }
    assert ts[..i] == ts;
  }

  /** `json.loads` of each row's three tag columns, in row order. */
  method DecodeAll(rows: seq<FacetRow>) returns (ok: bool)
    ensures ok <==> forall k :: 0 <= k < |rows| ==> Decodes(rows[k])
  {
    var i := 0;
    while i < |rows|
      invariant 0 <= i <= |rows|
      invariant forall k :: 0 <= k < i ==> Decodes(rows[k])
    {
      if !Decodes(rows[i]) {
        return false;
      }
      i := i + 1;
    }
    return true;
  }

  /** `get_series_by_tags`: refresh the tag cache, decode every row's tag
      columns (`json.loads` raises on bad text, failing the whole query), then
      tally the matching series and rank the related tags. */
  method SeriesByTags(cache: TagCache, selected: seq<String>, rows: seq<FacetRow>,
                      comics: seq<FanComic>, now: int)
    returns (r: Result<FacetReport, String>, ghost keys: seq<String>)
    modifies cache
    requires cache.systemTags.Some? ==> cache.containment.Some? && cache.lookup.Some?
    ensures old(cache.systemTags).None? ==> cache.BuiltFrom(TagRows(rows))
    ensures old(cache.systemTags).Some? ==>
              cache.systemTags == old(cache.systemTags) && cache.containment == old(cache.containment)
              && cache.lookup == old(cache.lookup)
    ensures r.Err? <==> exists i :: 0 <= i < |rows| && !Decodes(rows[i])
    ensures r.Ok? ==>
              cache.systemTags.Some? && cache.containment.Some? && cache.lookup.Some?
              && var ctx := FacetCtx(cache.systemTags.value, cache.containment.value, cache.lookup.value,
                                     SelectedNorms(selected));
                 var tc := Stats(ctx.st, ctx.sel, TagAll(ctx, rows));
                 r.value.series == Entries(ctx.sel, TagAll(ctx, rows), comics)
                 && r.value.matchingCount == |r.value.series|
                 && Distinct(keys) && Elems(keys) == tc.Keys
                 && SortedBy(r.value.related, RankLess)
                 && multiset(r.value.related) == multiset(ValuesAt(tc, keys))
  {
    keys := [];
    cache.Refresh(TagRows(rows), now);
    var ok := DecodeAll(rows);
    if !ok {
      return Err("tag column is not valid JSON"), keys;
    }
    var ctx := FacetCtx(cache.systemTags.value, cache.containment.value, cache.lookup.value,
                        SelectedNorms(selected));
    var matching, tc := TallyRows(ctx, rows, comics);
    var related;
    related, keys := Rank(tc);
    r := Ok(FacetReport(|matching|, related, matching));
  }

  // ---------------------------------------------------------------------------
  // The gap report
  // ---------------------------------------------------------------------------

  /** `SELECT series, volume, chapter FROM comics WHERE series IS NOT NULL
      ORDER BY series, volume, chapter`, one row. */
  datatype GapComic = GapComic(series: String, volume: Option<real>, chapter: Option<real>)

  datatype GapKind = ChapterGaps | VolumeGaps

  /** One report entry: `{'series', 'type', 'gaps', 'count'}`. */
  datatype GapEntry = GapEntry(series: String, kind: GapKind, gaps: seq<int>, count: nat)

  /** `int(x) == x`. */
  predicate Integral(x: real) {
    x.Floor as real == x
  }

  /** `range(lo, hi)`. */
  function Range(lo: int, hi: int): (r: seq<int>)
    ensures |r| == if lo < hi then hi - lo else 0
    ensures forall k :: 0 <= k < |r| ==> r[k] == lo + k
  {
    if lo < hi then seq(hi - lo, k requires 0 <= k < hi - lo => lo + k) else []
  }

  /** The numbers reported between two consecutive values. */
  function PairGaps(curr: real, next: real): seq<int> {
    if next - curr > 1.0 && Integral(curr) && Integral(next) then Range(curr.Floor + 1, next.Floor) else []
  }

  /** The numbers between one pair: whole numbers strictly between them, when
      both are whole and more than one apart. */
  lemma PairGapsMembers(curr: real, next: real, g: int)
    ensures g in PairGaps(curr, next) <==>
              Integral(curr) && Integral(next) && curr < g as real < next
  {
    var b := PairGaps(curr, next);
    if Integral(curr) && Integral(next) && curr < g as real < next {
      assert curr.Floor < g < next.Floor;
      assert b[g - curr.Floor - 1] == g;
    }
  }

  lemma PairGapsAscending(curr: real, next: real)
    ensures Increasing(PairGaps(curr, next))
  {
  }

  /** The gaps of a sorted list of numbers, pair by pair. */
  function Gaps(xs: seq<real>): seq<int>
    decreases |xs|
  {
    if |xs| < 2 then []
    else Gaps(xs[..|xs| - 1]) + PairGaps(xs[|xs| - 2], xs[|xs| - 1])
  }

  predicate NonDecreasing(xs: seq<real>) {
    forall i, j :: 0 <= i < j < |xs| ==> xs[i] <= xs[j]
  }

  predicate Increasing(gs: seq<int>) {
    forall i, j :: 0 <= i < j < |gs| ==> gs[i] < gs[j]
  }

  /** Gaps come out in strictly ascending order, each strictly between the
      smallest and the largest value. */
  lemma {:induction false} GapsAscending(xs: seq<real>)
    requires NonDecreasing(xs)
    ensures Increasing(Gaps(xs))
    ensures forall g :: g in Gaps(xs) ==> xs[0] < g as real < xs[|xs| - 1]
    decreases |xs|
  {
    if |xs| >= 2 {
      var init := xs[..|xs| - 1];
      var prev, last := xs[|xs| - 2], xs[|xs| - 1];
      GapsAscending(init);
      assert init[|init| - 1] == prev && init[0] == xs[0];
      forall g | g in PairGaps(prev, last) ensures prev < g as real < last {
        PairGapsMembers(prev, last, g);
      }
      PairGapsAscending(prev, last);
      ConcatIncreasing(Gaps(init), PairGaps(prev, last), prev);
    }
  }

  lemma ConcatIncreasing(a: seq<int>, b: seq<int>, mid: real)
    requires Increasing(a) && Increasing(b)
    requires forall g :: g in a ==> g as real < mid
    requires forall g :: g in b ==> mid < g as real
    ensures Increasing(a + b)
  {
    forall i, j | 0 <= i < j < |a + b| ensures (a + b)[i] < (a + b)[j] {
      if j >= |a| && i < |a| {
        assert a[i] in a && b[j - |a|] in b;
      }
    }
  }

  /** When every value is a whole number, the gaps are exactly the whole
      numbers strictly between the smallest and the largest value that do not
      occur in the list. */
  lemma {:induction false} GapsAreMissingNumbers(xs: seq<real>, g: int)
    requires xs != [] && NonDecreasing(xs)
    requires forall k :: 0 <= k < |xs| ==> Integral(xs[k])
    ensures g in Gaps(xs) <==> xs[0] < g as real < xs[|xs| - 1] && g as real !in xs
    decreases |xs|
  {
    if |xs| >= 2 {
      var init := xs[..|xs| - 1];
      var prev, last := xs[|xs| - 2], xs[|xs| - 1];
      PrefixFacts(xs);
      GapsAreMissingNumbers(init, g);
      PairGapsMembers(prev, last, g);
      MissingSnoc(init, last, g);
    }
  }

  lemma PrefixFacts(xs: seq<real>)
    requires |xs| >= 2 && NonDecreasing(xs)
    requires forall k :: 0 <= k < |xs| ==> Integral(xs[k])
    ensures var init := xs[..|xs| - 1];
      NonDecreasing(init) && init != [] && init[0] == xs[0] && init[|init| - 1] == xs[|xs| - 2]
      && (forall k :: 0 <= k < |init| ==> Integral(init[k]) && init[k] <= xs[|xs| - 2])
      && xs == init + [xs[|xs| - 1]] && xs[|xs| - 2] <= xs[|xs| - 1]
  {
  }

  /** Adding a last value `last` at least as large as the others: the missing
      numbers up to the old end, plus the ones between it and `last`. */
  lemma MissingSnoc(init: seq<real>, last: real, g: int)
    requires init != [] && init[|init| - 1] <= last
    requires forall k :: 0 <= k < |init| ==> init[k] <= init[|init| - 1]
    ensures var prev := init[|init| - 1];
      (init[0] < g as real < last && g as real !in init + [last]) <==>
      ((init[0] < g as real < prev && g as real !in init) || prev < g as real < last)
  {
    var prev := init[|init| - 1];
    if prev < g as real {
      assert g as real !in init;
    }
    if g as real == prev {
      assert g as real in init;
    }
  }

  lemma GapsSnoc(xs: seq<real>, i: nat)
    requires i + 1 < |xs|
    ensures Gaps(xs[..i + 2]) == Gaps(xs[..i + 1]) + PairGaps(xs[i], xs[i + 1])
  {
    assert xs[..i + 2][..i + 1] == xs[..i + 1];
  }

  /** `for g in range(lo, hi): gaps.append(g)`. */
  method AppendRange(gaps0: seq<int>, lo: int, hi: int) returns (gaps: seq<int>)
    ensures gaps == gaps0 + Range(lo, hi)
  {
    gaps := gaps0;
    var g := lo;
    while g < hi
      invariant lo <= g <= if lo < hi then hi else lo
      invariant gaps == gaps0 + Range(lo, g)
    {
      assert Range(lo, g + 1) == Range(lo, g) + [g];
      gaps := gaps + [g];
      g := g + 1;
    }
  }

  /** The gap loop: `for i in range(len(xs) - 1)` with the inner `range`. */
  method FindGaps(xs: seq<real>) returns (gaps: seq<int>)
    ensures gaps == Gaps(xs)
  {
    gaps := [];
    if |xs| < 2 {
      return;
    }
    var i := 0;
    while i < |xs| - 1
      invariant 0 <= i <= |xs| - 1
      invariant gaps == Gaps(xs[..i + 1])
    {
      var curr, next := xs[i], xs[i + 1];
      GapsSnoc(xs, i);
      if next - curr > 1.0 && Integral(curr) && Integral(next) {
        gaps := AppendRange(gaps, curr.Floor + 1, next.Floor);
      }
      i := i + 1;
    }
    assert xs[..i + 1] == xs;
  }

  predicate RealLess(a: real, b: real) { a < b }

  lemma RealLessIsStrictOrder()
    ensures StrictOrder(RealLess)
  {
  }

  /** `sorted(...)`. */
  function SortReals(xs: seq<real>): (r: seq<real>)
    ensures multiset(r) == multiset(xs) && NonDecreasing(r)
  {
    RealLessIsStrictOrder();
    SortBy(xs, RealLess)
  }

  /** The non-NULL chapters of a series' comics, in query order. */
  function ChaptersOf(cs: seq<GapComic>): seq<real>
    decreases |cs|
  {
    if cs == [] then []
    else
      var c := cs[|cs| - 1];
      ChaptersOf(cs[..|cs| - 1]) + (if c.chapter.Some? then [c.chapter.value] else [])
  }

  /** The distinct non-NULL volumes, in order of first appearance. */
  function VolumesOf(cs: seq<GapComic>): (vs: seq<real>)
    ensures Distinct(vs)
    ensures forall v :: v in vs <==> exists k :: 0 <= k < |cs| && cs[k].volume == Some(v)
    decreases |cs|
  {
    if cs == [] then []
    else
      var pre := cs[..|cs| - 1];
      var init := VolumesOf(pre);
      var c := cs[|cs| - 1];
      assert forall k :: 0 <= k < |pre| ==> pre[k] == cs[k];
      if c.volume.Some? && c.volume.value !in init then init + [c.volume.value] else init
  }

  /** The report entries of one series: chapter gaps first, then volume gaps,
      each only when non-empty. */
  function SeriesGaps(name: String, cs: seq<GapComic>): seq<GapEntry> {
    EntryIfAny(name, ChapterGaps, Gaps(SortReals(ChaptersOf(cs))))
    + EntryIfAny(name, VolumeGaps, Gaps(SortReals(VolumesOf(cs))))
  }

  /** `if gaps: gaps_report.append({...})`. */
  function EntryIfAny(name: String, kind: GapKind, gaps: seq<int>): seq<GapEntry> {
    if gaps != [] then [GapEntry(name, kind, gaps, |gaps|)] else []
  }

  /** The series names in order of first appearance (the `defaultdict`'s order). */
  function SeriesOrder(rows: seq<GapComic>): (names: seq<String>)
    ensures Distinct(names)
    ensures forall n :: n in names <==> exists k :: 0 <= k < |rows| && rows[k].series == n
    decreases |rows|
  {
    if rows == [] then []
    else
      var pre := rows[..|rows| - 1];
      var init := SeriesOrder(pre);
      var n := rows[|rows| - 1].series;
      assert forall k :: 0 <= k < |pre| ==> pre[k] == rows[k];
      if n in init then init else init + [n]
  }

  /** The comics of one series, in query order. */
  function RowsOf(rows: seq<GapComic>, name: String): seq<GapComic>
    decreases |rows|
  {
    if rows == [] then []
    else
      var r := rows[|rows| - 1];
      RowsOf(rows[..|rows| - 1], name) + (if r.series == name then [r] else [])
  }

  function ReportFor(rows: seq<GapComic>, names: seq<String>): seq<GapEntry>
    decreases |names|
  {
    if names == [] then []
    else ReportFor(rows, names[..|names| - 1]) + SeriesGaps(names[|names| - 1], RowsOf(rows, names[|names| - 1]))
  }

  /** `get_gaps_report`. */
  function GapReport(rows: seq<GapComic>): seq<GapEntry> {
    ReportFor(rows, SeriesOrder(rows))
  }

  lemma SeriesGapsWellFormed(name: String, cs: seq<GapComic>)
    ensures forall e :: e in SeriesGaps(name, cs) ==>
              e.gaps != [] && e.count == |e.gaps| && Increasing(e.gaps) && e.series == name
  {
    var ch := SortReals(ChaptersOf(cs));
    var vo := SortReals(VolumesOf(cs));
    GapsAscending(ch);
    GapsAscending(vo);
    EntryIfAnyWellFormed(name, ChapterGaps, Gaps(ch));
    EntryIfAnyWellFormed(name, VolumeGaps, Gaps(vo));
  }

  lemma EntryIfAnyWellFormed(name: String, kind: GapKind, gaps: seq<int>)
    requires Increasing(gaps)
    ensures forall e :: e in EntryIfAny(name, kind, gaps) ==>
              e.gaps != [] && e.count == |e.gaps| && Increasing(e.gaps) && e.series == name
  {
  }

  /** Every entry of the report lists a non-empty, strictly ascending run of
      gaps, and its count is the number of gaps. */
  lemma {:induction false} ReportEntriesWellFormed(rows: seq<GapComic>, names: seq<String>)
    ensures forall e :: e in ReportFor(rows, names) ==>
              e.gaps != [] && e.count == |e.gaps| && Increasing(e.gaps) && e.series in names
    decreases |names|
  {
    if names != [] {
      var init, name := names[..|names| - 1], names[|names| - 1];
      ReportEntriesWellFormed(rows, init);
      SeriesGapsWellFormed(name, RowsOf(rows, name));
      assert forall n :: n in init ==> n in names;
    }
  }

  lemma ReportForSnoc(rows: seq<GapComic>, names: seq<String>, i: nat)
    requires i < |names|
    ensures ReportFor(rows, names[..i + 1]) == ReportFor(rows, names[..i]) + SeriesGaps(names[i], RowsOf(rows, names[i]))
  {
    assert names[..i + 1][..i] == names[..i];
  }

  /** The grouping loop: `series_comics[row['series']].append(row)`. */
  method GroupBySeries(rows: seq<GapComic>) returns (order: seq<String>, groups: map<String, seq<GapComic>>)
    ensures order == SeriesOrder(rows)
    ensures forall n :: n in order ==> n in groups && groups[n] == RowsOf(rows, n)
  {
    order := [];
    groups := map[];
    var i := 0;
    while i < |rows|
      invariant 0 <= i <= |rows|
      invariant order == SeriesOrder(rows[..i])
      invariant forall n :: n in groups <==> n in order
      invariant forall n :: n in groups ==> groups[n] == RowsOf(rows[..i], n)
    {
      var r := rows[i];
      assert rows[..i + 1][..i] == rows[..i];
      if r.series !in groups {
        order := order + [r.series];
        groups := groups[r.series := [r]];
        assert RowsOf(rows[..i], r.series) == [] by {
          NotInOrderNoRows(rows[..i], r.series);
        }
      } else {
        groups := groups[r.series := groups[r.series] + [r]];
      }
      i := i + 1;
    }
    assert rows[..i] == rows;
  }

  lemma {:induction false} NotInOrderNoRows(rows: seq<GapComic>, name: String)
    requires name !in SeriesOrder(rows)
    ensures RowsOf(rows, name) == []
    decreases |rows|
  {
    if rows != [] {
      NotInOrderNoRows(rows[..|rows| - 1], name);
    }
  }

  /** The body of the loop over the series: chapter gaps, then volume gaps. */
  method SeriesReport(name: String, comics: seq<GapComic>) returns (entries: seq<GapEntry>)
    ensures entries == SeriesGaps(name, comics)
  {
    var chapters := ChaptersOf(comics);
    var gaps := FindGaps(SortReals(chapters));
    var chapterEntry := EntryIfAny(name, ChapterGaps, gaps);
    var volumes := VolumesOf(comics);
    var vGaps := FindGaps(SortReals(volumes));
    var volumeEntry := EntryIfAny(name, VolumeGaps, vGaps);
    entries := chapterEntry + volumeEntry;
  }

  /** `get_gaps_report`: group the rows, then report each series' chapter and
      volume gaps. */
  method GapsReport(rows: seq<GapComic>) returns (report: seq<GapEntry>)
    ensures report == GapReport(rows)
  {
    var order, groups := GroupBySeries(rows);
    report := [];
    var i := 0;
    while i < |order|
      invariant 0 <= i <= |order|
      invariant report == ReportFor(rows, order[..i])
    {
      var entries := SeriesReport(order[i], groups[order[i]]);
      ReportForSnoc(rows, order, i);
      report := report + entries;
      i := i + 1;
    }
    assert order[..i] == order;
  }

  // ---------------------------------------------------------------------------
  // Search
  // ---------------------------------------------------------------------------

  /** `re.sub(r'[^\w\s]', ' ', query)`. */
  function CleanQuery(q: String): (c: String)
    ensures |c| == |q|
    ensures forall i :: 0 <= i < |q| ==> c[i] == if IsWordChar(q[i]) || IsSpace(q[i]) then q[i] else ' '
  {
    seq(|q|, i requires 0 <= i < |q| => if IsWordChar(q[i]) || IsSpace(q[i]) then q[i] else ' ')
  }

  /** `clean_query.strip().split()`. */
  function SearchWords(q: String): seq<String> {
    Words(Strip(CleanQuery(q)))
  }

  /** `f'"{w}"*'`: a quoted prefix term. */
  function FtsTerm(w: String): String {
    "\"" + w + "\"*"
  }

  /** `' '.join(f'"{w}"*' for w in words)`. */
  function FtsQuery(ws: seq<String>): String {
    Join(" ", seq(|ws|, i requires 0 <= i < |ws| => FtsTerm(ws[i])))
  }

  /** What the full-text query gives back: rows, or `sqlite3.OperationalError`
      when the index is missing or rejects the query. */
  datatype FtsOutcome<T> = FtsRows(rows: seq<T>) | FtsError

  /** `search_series`: the ranked full-text search and the ranked LIKE search are
      given as functions of their query text and limit. */
  function SearchSeries<T>(query: String, limit: int,
                           fts: (String, int) -> FtsOutcome<T>, like: (String, int) -> seq<T>): (r: seq<T>)
  {
    if Strip(query) == [] then []
    else
      var ws := SearchWords(query);
      if ws == [] then []
      else
        var found := match fts(FtsQuery(ws), limit) case FtsRows(rs) => rs case FtsError => [];
        if found != [] then found else like("%" + query + "%", limit)
  }

  lemma {:induction false} WordCharsFromText(s: String)
    ensures forall w, c :: w in Words(s) && c in w ==> c in s
    decreases |s|
  {
    var t := StripLeft(s);
    if t != [] {
      var n := WordLength(t);
      WordCharsFromText(t[n..]);
      assert Words(s) == [t[..n]] + Words(t[n..]);
      SuffixChars(s, t);
    }
  }

  lemma SuffixChars(s: String, t: String)
    requires |t| <= |s| && t == s[|s| - |t|..]
    ensures forall c :: c in t ==> c in s
  {
    forall c | c in t ensures c in s {
      var i :| 0 <= i < |t| && t[i] == c;
      assert s[|s| - |t| + i] == c;
    }
  }

  lemma StripKeepsChars(s: String, c: char)
    requires c in Strip(s)
    ensures c in s
  {
    var l := StripLeft(s);
    assert c in l;
    var i :| 0 <= i < |l| && l[i] == c;
    assert s[|s| - |l| + i] == c;
  }

  /** Every word of the cleaned query is a non-empty run of `\w` characters, so
      each quoted term of the full-text query holds exactly one word and no
      quote or operator of the full-text syntax. */
  lemma SearchTermsAreWords(q: String)
    ensures forall w :: w in SearchWords(q) ==> w != [] && AllWordChars(w)
  {
    var ws := SearchWords(q);
    assert AreWords(ws);
    forall w | w in ws ensures w != [] && AllWordChars(w) {
      forall i | 0 <= i < |w| ensures IsWordChar(w[i]) {
        SearchWordChar(q, w, i);
      }
    }
  }

  lemma SearchWordChar(q: String, w: String, i: nat)
    requires w in SearchWords(q) && i < |w|
    ensures IsWordChar(w[i])
  {
    var ws := SearchWords(q);
    var k :| 0 <= k < |ws| && ws[k] == w;
    assert AreWords(ws) && HasNoSpace(ws[k]);
    assert !IsSpace(w[i]);
    WordCharsFromText(Strip(CleanQuery(q)));
    assert w[i] in w;
    CleanCharIsWordOrSpace(q, w[i]);
  }

  lemma CleanCharIsWordOrSpace(q: String, c: char)
    requires c in Strip(CleanQuery(q))
    ensures IsWordChar(c) || IsSpace(c)
  {
    StripKeepsChars(CleanQuery(q), c);
    var j :| 0 <= j < |q| && CleanQuery(q)[j] == c;
  }

  /** A query with no `\w` character returns nothing and runs no search at all. */
  lemma NoWordCharNoResults<T>(q: String, limit: int, fts: (String, int) -> FtsOutcome<T>, like: (String, int) -> seq<T>)
    requires forall i :: 0 <= i < |q| ==> !IsWordChar(q[i])
    ensures SearchSeries(q, limit, fts, like) == []
  {
    var c := CleanQuery(q);
    assert forall i :: 0 <= i < |c| ==> IsSpace(c[i]);
    assert Strip(c) == [];
  }

  /** When full-text search finds nothing (or fails), the fallback matches the
      raw query, punctuation included, as a substring pattern. */
  lemma FallbackUsesRawQuery<T>(q: String, limit: int, fts: (String, int) -> FtsOutcome<T>, like: (String, int) -> seq<T>)
    requires SearchWords(q) != []
    requires fts(FtsQuery(SearchWords(q)), limit) in {FtsError, FtsRows([])}
    ensures SearchSeries(q, limit, fts, like) == like("%" + q + "%", limit)
  {
  }

  // ---------------------------------------------------------------------------
  // Filter lists
  // ---------------------------------------------------------------------------

  /** `sorted(row[0] for row in SELECT DISTINCT status ... WHERE status IS NOT NULL)`. */
  method SortedStatuses(column: seq<Option<String>>) returns (statuses: seq<String>)
    ensures StrictlySorted(statuses)
    ensures forall s :: s in statuses <==> Some(s) in column
  {
    var distinct: seq<String> := [];
    var i := 0;
    while i < |column|
      invariant 0 <= i <= |column|
      invariant forall a, b :: 0 <= a < b < |distinct| ==> distinct[a] != distinct[b]
      invariant forall s :: s in distinct <==> Some(s) in column[..i]
    {
      assert column[..i + 1] == column[..i] + [column[i]];
      if column[i].Some? && column[i].value !in distinct {
        distinct := distinct + [column[i].value];
      }
      i := i + 1;
    }
    assert column[..i] == column;
    statuses := SortStrings(distinct);
    forall s ensures s in statuses <==> s in distinct {
      assert s in statuses <==> s in multiset(statuses);
      assert s in distinct <==> s in multiset(distinct);
    }
  }

  /** No two tags of the cache share a display spelling. */
  lemma SystemTagsInjective(rows: seq<TagRow>, m: String, n: String)
    requires m in SystemTags(rows) && n in SystemTags(rows) && m != n
    ensures SystemTags(rows)[m] != SystemTags(rows)[n]
  {
    DisplayNormalises(rows, m);
    DisplayNormalises(rows, n);
  }

  /** `sorted(_TAG_CACHE['system_tags'].values())`. */
  method SortedGenres(st: map<String, String>) returns (genres: seq<String>)
    requires forall m, n :: m in st && n in st && m != n ==> st[m] != st[n]
    ensures StrictlySorted(genres)
    ensures forall g :: g in genres <==> g in st.Values
  {
    var values: seq<String> := [];
    var todo := st.Keys;
    while todo != {}
      invariant todo <= st.Keys
      invariant forall a, b :: 0 <= a < b < |values| ==> values[a] != values[b]
      invariant forall g :: g in values <==> exists n :: n in st.Keys - todo && st[n] == g
      decreases |todo|
    {
      var n :| n in todo;
      assert st[n] !in values;
      values := values + [st[n]];
      todo := todo - {n};
    }
    genres := SortStrings(values);
    forall g ensures g in genres <==> g in values {
      assert g in genres <==> g in multiset(genres);
      assert g in values <==> g in multiset(values);
    }
  }

  /** `get_series_metadata`: the distinct statuses and the display spellings of
      all known tags, each sorted. */
  method SeriesMetadata(cache: TagCache, rows: seq<TagRow>, statusColumn: seq<Option<String>>, now: int,
                        ghost earlier: seq<TagRow>)
    returns (statuses: seq<String>, genres: seq<String>)
    modifies cache
    requires cache.systemTags.Some? ==> cache.BuiltFrom(earlier)
    ensures old(cache.systemTags).None? ==> cache.BuiltFrom(rows)
    ensures cache.systemTags.Some?
    ensures StrictlySorted(statuses) && forall s :: s in statuses <==> Some(s) in statusColumn
    ensures StrictlySorted(genres) && forall g :: g in genres <==> g in cache.systemTags.value.Values
  {
    cache.Refresh(rows, now);
    statuses := SortedStatuses(statusColumn);
    ghost var rows0 := if old(cache.systemTags).None? then rows else earlier;
    assert cache.BuiltFrom(rows0);
    forall m, n | m in cache.systemTags.value && n in cache.systemTags.value && m != n
      ensures cache.systemTags.value[m] != cache.systemTags.value[n]
    {
      SystemTagsInjective(rows0, m, n);
    }
    genres := SortedGenres(cache.systemTags.value);
  }
}
