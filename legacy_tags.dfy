/** The older copy of the faceted "series by tags" query in `database.py`:
    tags are matched by lower-casing only, the spelling from `tags` overrides a
    genre with the same lower case, and related tags are keyed by their display
    spelling. The tallying and the ranking are those of `SeriesQueries`. */
module LegacyTags {
  import opened Text
  import opened Wrappers
  import opened Collections
  import opened TagTaxonomy
  import opened SeriesQueries

  // ---------------------------------------------------------------------------
  // The combined map of one series
  // ---------------------------------------------------------------------------

  /** `for g in xs: combined_map[g.lower()] = g`. */
  function Assign(m: map<String, String>, xs: seq<String>): map<String, String>
    decreases |xs|
  {
    if xs == [] then m
    else
      var x := xs[|xs| - 1];
      Assign(m, xs[..|xs| - 1])[LowerStr(x) := x]
  }

  /** `combined_map`: genres first, then tags; a column that is NULL, empty or
      not valid JSON contributes nothing (`except: pass`). */
  function CombinedMap(r: FacetRow): map<String, String> {
    Assign(Assign(map[], ColumnItems(r.genres)), ColumnItems(r.tags))
  }

  /** The last spelling in `xs` whose lower case is `k`. */
  function LastSpelling(xs: seq<String>, k: String): (o: Option<String>)
    ensures o.Some? ==> o.value in xs && LowerStr(o.value) == k
    decreases |xs|
  {
    if xs == [] then None
    else if LowerStr(xs[|xs| - 1]) == k then Some(xs[|xs| - 1])
    else LastSpelling(xs[..|xs| - 1], k)
  }

  lemma {:induction false} LastSpellingFound(xs: seq<String>, k: String)
    ensures LastSpelling(xs, k).Some? <==> exists x :: x in xs && LowerStr(x) == k
    decreases |xs|
  {
    if xs != [] {
      var init := xs[..|xs| - 1];
      LastSpellingFound(init, k);
      assert xs == init + [xs[|xs| - 1]];
    }
  }

  /** Assigning a list of spellings: a key is present iff it was before or some
      spelling lowers to it, and it then maps to the last such spelling. */
  lemma {:induction false} AssignAt(m: map<String, String>, xs: seq<String>, k: String)
    ensures k in Assign(m, xs) <==> k in m || LastSpelling(xs, k).Some?
    ensures k in Assign(m, xs) ==>
              Assign(m, xs)[k] == if LastSpelling(xs, k).Some? then LastSpelling(xs, k).value else m[k]
    decreases |xs|
  {
    if xs != [] {
      AssignAt(m, xs[..|xs| - 1], k);
    }
  }

  /** Every key of the combined map is the lower case of its spelling. */
  lemma DisplayLowersToKey(r: FacetRow, k: String)
    requires k in CombinedMap(r)
    ensures LowerStr(CombinedMap(r)[k]) == k
  {
    var gs, ts := ColumnItems(r.genres), ColumnItems(r.tags);
    AssignAt(Assign(map[], gs), ts, k);
    AssignAt(map[], gs, k);
  }

  /** A key is in the combined map iff some genre or tag lowers to it; the
      spelling kept is the last tag that lowers to it, or failing that the last
      genre. */
  lemma CombinedMapSpec(r: FacetRow, k: String)
    ensures k in CombinedMap(r) <==>
              exists x :: x in ColumnItems(r.genres) + ColumnItems(r.tags) && LowerStr(x) == k
    ensures k in CombinedMap(r) ==>
              LastSpelling(ColumnItems(r.tags), k).Some? || LastSpelling(ColumnItems(r.genres), k).Some?
    ensures k in CombinedMap(r) ==>
              CombinedMap(r)[k] == if LastSpelling(ColumnItems(r.tags), k).Some?
                                   then LastSpelling(ColumnItems(r.tags), k).value
                                   else LastSpelling(ColumnItems(r.genres), k).value
  {
    var gs, ts := ColumnItems(r.genres), ColumnItems(r.tags);
    AssignAt(Assign(map[], gs), ts, k);
    AssignAt(map[], gs, k);
    LastSpellingFound(gs, k);
    LastSpellingFound(ts, k);
  }

  /** Within one series, a spelling from `tags` overrides a genre with the same
      lower case. */
  lemma TagsOverrideGenres(r: FacetRow, t: String)
    requires t in ColumnItems(r.tags)
    ensures LowerStr(t) in CombinedMap(r)
    ensures CombinedMap(r)[LowerStr(t)] in ColumnItems(r.tags)
  {
    CombinedMapSpec(r, LowerStr(t));
    LastSpellingFound(ColumnItems(r.tags), LowerStr(t));
  }

  // ---------------------------------------------------------------------------
  // Matching and counting
  // ---------------------------------------------------------------------------

  /** `selected_set = set(t.lower() for t in selected_tags)`. */
  function SelectedSet(selected: seq<String>): set<String> {
    set t | t in selected :: LowerStr(t)
  }

  /** `selected_set.issubset(series_tag_set)`. */
  predicate LegacyMatch(sel: set<String>, r: FacetRow) {
    sel <= CombinedMap(r).Keys
  }

  /** A series matches iff every selected tag equals, up to case, one of its
      genres or tags. */
  lemma LegacyMatchIff(selected: seq<String>, r: FacetRow)
    ensures LegacyMatch(SelectedSet(selected), r) <==>
              forall s :: s in selected ==>
                exists x :: x in ColumnItems(r.genres) + ColumnItems(r.tags) && LowerStr(x) == LowerStr(s)
  {
    forall s | s in selected {
      CombinedMapSpec(r, LowerStr(s));
    }
    if !LegacyMatch(SelectedSet(selected), r) {
      var k :| k in SelectedSet(selected) && k !in CombinedMap(r);
      var s :| s in selected && LowerStr(s) == k;
      CombinedMapSpec(r, k);
    }
  }

  /** The display spellings counted for one matching series: those whose lower
      case is not selected. */
  function CountedDisplays(sel: set<String>, cm: map<String, String>, keys: set<String>): set<String> {
    set k | k in keys && k in cm && k !in sel :: cm[k]
  }

  /** The tag set a row contributes to the tally: the counted displays when it
      matches, nothing otherwise. */
  function LegacyNorms(sel: set<String>, r: FacetRow): set<String> {
    if LegacyMatch(sel, r) then CountedDisplays(sel, CombinedMap(r), CombinedMap(r).Keys) else {}
  }

  function LegacyTagged(sel: set<String>, rows: seq<FacetRow>): (ts: seq<Tagged>)
    ensures |ts| == |rows|
    decreases |rows|
  {
    if rows == [] then []
    else
      var r := rows[|rows| - 1];
      LegacyTagged(sel, rows[..|rows| - 1]) + [Tagged(r, LegacyNorms(sel, r))]
  }

  /** `tag_counts`, keyed by display spelling with the spelling as its name. */
  function LegacyStats(sel: set<String>, rows: seq<FacetRow>): map<String, TagStat> {
    Stats(map[], [], LegacyTagged(sel, rows))
  }

  /** `matching_series`, in row order. */
  function LegacyEntries(sel: set<String>, rows: seq<FacetRow>, comics: seq<FanComic>): seq<MatchEntry>
    decreases |rows|
  {
    if rows == [] then []
    else
      var r := rows[|rows| - 1];
      LegacyEntries(sel, rows[..|rows| - 1], comics) + (if LegacyMatch(sel, r) then [EntryOf(r, comics)] else [])
  }

  // ---------------------------------------------------------------------------
  // Properties of the tally
  // ---------------------------------------------------------------------------

  /** A series carries display `d` iff it matches and `d` is the kept spelling
      of one of its keys that is not selected. */
  lemma {:induction false} LegacyCarriers(sel: set<String>, rows: seq<FacetRow>, d: String, r: FacetRow)
    ensures r in Carriers([], LegacyTagged(sel, rows), d) <==>
              r in rows && LegacyMatch(sel, r) && exists k :: k in CombinedMap(r) && k !in sel && CombinedMap(r)[k] == d
    decreases |rows|
  {
    if rows != [] {
      var init, last := rows[..|rows| - 1], rows[|rows| - 1];
      var ts := LegacyTagged(sel, rows);
      LegacyCarriers(sel, init, d, r);
      assert ts[..|ts| - 1] == LegacyTagged(sel, init);
      assert rows == init + [last];
    }
  }

  /** Each related tag is a counted display of some matching series; its name is
      the display, its count the number of matching series that carry it, and
      its samples the first three covers and names of those series. */
  lemma LegacyStatsReference(sel: set<String>, rows: seq<FacetRow>, d: String)
    ensures d in LegacyStats(sel, rows) <==> Carriers([], LegacyTagged(sel, rows), d) != []
    ensures d in LegacyStats(sel, rows) ==>
              var cs := Carriers([], LegacyTagged(sel, rows), d);
              LegacyStats(sel, rows)[d] == TagStat(d, |cs|, Take(CoversOf(cs), 3), Take(NamesOf(cs), 3))
  {
    StatsReference(map[], [], LegacyTagged(sel, rows), d);
  }

  /** No related tag lowers to a selected tag. */
  lemma SelectedNeverRelated(sel: set<String>, rows: seq<FacetRow>, d: String)
    requires d in LegacyStats(sel, rows)
    ensures LowerStr(d) !in sel
  {
    LegacyStatsReference(sel, rows, d);
    var cs := Carriers([], LegacyTagged(sel, rows), d);
    var r := cs[0];
    assert r in cs;
    LegacyCarriers(sel, rows, d, r);
    var k :| k in CombinedMap(r) && k !in sel && CombinedMap(r)[k] == d;
    DisplayLowersToKey(r, k);
  }

  /** Entries are keyed by their own name, so no two share one and the ranked
      list is determined (`SeriesQueries.RankingIsUnique`). */
  lemma LegacyNamesDistinct(sel: set<String>, rows: seq<FacetRow>)
    ensures NamesDistinct(LegacyStats(sel, rows))
  {
    forall d | d in LegacyStats(sel, rows) ensures LegacyStats(sel, rows)[d].name == d {
      LegacyStatsReference(sel, rows, d);
    }
  }

  /** A series whose only tag is the genre `g` ("Action" or "action") matches
      the empty selection and counts `g` under its own spelling. */
  lemma SingleGenreRow(r: FacetRow, g: String)
    requires r.genres == ListColumn([g]) && r.tags == NullColumn
    requires g == "Action" || g == "action"
    ensures LegacyMatch({}, r) && LegacyNorms({}, r) == {g}
  {
    var lower := "action";
    assert LowerStr(g) == lower;
    assert ColumnItems(r.genres) == [g] && ColumnItems(r.tags) == [];
    assert [g][..0] == [];
    assert Assign(map[], [g]) == map[lower := g];
    assert CombinedMap(r) == map[lower := g];
    assert CombinedMap(r).Keys == {lower};
    assert CountedDisplays({}, CombinedMap(r), {lower}) == {g};
  }

  /** Each of the two spellings is carried by its own series only. */
  lemma CarriersApart(a: FacetRow, b: FacetRow)
    ensures var ts := [Tagged(a, {"Action"}), Tagged(b, {"action"})];
            Carriers([], ts, "Action") == [a] && Carriers([], ts, "action") == [b]
  {
    var ts := [Tagged(a, {"Action"}), Tagged(b, {"action"})];
    assert ts[..1] == [Tagged(a, {"Action"})] && ts[..1][..0] == [];
    assert "Action"[0] != "action"[0];
    assert Carriers([], ts[..1], "Action") == [a];
    assert Carriers([], ts[..1], "action") == [];
  }

  /** Two spellings that differ only in case are counted apart: a series with
      genre "Action" and another with genre "action" give two related tags. */
  lemma CaseVariantsCountedApart()
    ensures var a := FacetRow(1, "A", None, None, ListColumn(["Action"]), NullColumn, NullColumn, None, None);
            var b := FacetRow(2, "B", None, None, ListColumn(["action"]), NullColumn, NullColumn, None, None);
            var tc := LegacyStats({}, [a, b]);
            "Action" in tc && "action" in tc && tc["Action"].count == 1 && tc["action"].count == 1
  {
    var a := FacetRow(1, "A", None, None, ListColumn(["Action"]), NullColumn, NullColumn, None, None);
    var b := FacetRow(2, "B", None, None, ListColumn(["action"]), NullColumn, NullColumn, None, None);
    SingleGenreRow(a, "Action");
    SingleGenreRow(b, "action");
    var ts := LegacyTagged({}, [a, b]);
    assert [a, b][..1] == [a];
    assert LegacyTagged({}, [a]) == [Tagged(a, {"Action"})];
    assert ts == [Tagged(a, {"Action"}), Tagged(b, {"action"})];
    CarriersApart(a, b);
    LegacyStatsReference({}, [a, b], "Action");
    LegacyStatsReference({}, [a, b], "action");
  }

  // ---------------------------------------------------------------------------
  // The loops
  // ---------------------------------------------------------------------------

  /** The two loops filling `combined_map`. */
  method BuildCombined(r: FacetRow) returns (cm: map<String, String>)
    ensures cm == CombinedMap(r)
  {
    var gs, ts := ColumnItems(r.genres), ColumnItems(r.tags);
    cm := AssignAll(map[], gs);
    cm := AssignAll(cm, ts);
  }

  method AssignAll(m: map<String, String>, xs: seq<String>) returns (cm: map<String, String>)
    ensures cm == Assign(m, xs)
  {
    cm := m;
    var i := 0;
    while i < |xs|
      invariant 0 <= i <= |xs|
      invariant cm == Assign(m, xs[..i])
    {
      assert xs[..i + 1][..i] == xs[..i];
      cm := cm[LowerStr(xs[i]) := xs[i]];
      i := i + 1;
    }
    assert xs[..i] == xs;
  }

  lemma CountStep(sel: set<String>, cm: map<String, String>, done: set<String>, k: String)
    requires k in cm && k !in done && k !in sel
    requires forall j :: j in cm ==> LowerStr(cm[j]) == j
    ensures CountedDisplays(sel, cm, done + {k}) == CountedDisplays(sel, cm, done) + {cm[k]}
    ensures cm[k] !in CountedDisplays(sel, cm, done)
  {
  }

  /** The loop over `combined_map.items()` of one matching series. */
  method CountRelated(tc0: map<String, TagStat>, sel: set<String>, cm: map<String, String>, r: FacetRow)
    returns (tc: map<String, TagStat>)
    requires forall j :: j in cm ==> LowerStr(cm[j]) == j
    ensures tc == TallySeries(tc0, map[], [], CountedDisplays(sel, cm, cm.Keys), r)
  {
    tc := tc0;
    var todo := cm.Keys;
    while todo != {}
      invariant todo <= cm.Keys
      invariant tc == TallySeries(tc0, map[], [], CountedDisplays(sel, cm, cm.Keys - todo), r)
      decreases |todo|
    {
      var k :| k in todo;
      ghost var done := cm.Keys - todo;
      assert cm.Keys - (todo - {k}) == done + {k};
      if k !in sel {
        var d := cm[k];
        CountStep(sel, cm, done, k);
        TallyAddOne(tc0, map[], [], CountedDisplays(sel, cm, done), r, d);
        tc := tc[d := Bump(Current(tc, map[], d), r)];
      } else {
        assert CountedDisplays(sel, cm, done + {k}) == CountedDisplays(sel, cm, done);
      }
      todo := todo - {k};
    }
    assert cm.Keys - todo == cm.Keys;
  }

  lemma TallyNothing(tc: map<String, TagStat>, r: FacetRow)
    ensures TallySeries(tc, map[], [], {}, r) == tc
  {
  }

  lemma LegacyStep(sel: set<String>, rows: seq<FacetRow>, comics: seq<FanComic>, i: nat)
    requires i < |rows|
    ensures LegacyEntries(sel, rows[..i + 1], comics) ==
              LegacyEntries(sel, rows[..i], comics) + (if LegacyMatch(sel, rows[i]) then [EntryOf(rows[i], comics)] else [])
    ensures LegacyStats(sel, rows[..i + 1]) ==
              TallySeries(LegacyStats(sel, rows[..i]), map[], [], LegacyNorms(sel, rows[i]), rows[i])
  {
    assert rows[..i + 1][..i] == rows[..i];
    var ts := LegacyTagged(sel, rows[..i + 1]);
    assert ts[..i] == LegacyTagged(sel, rows[..i]);
  }

  /** The body of the row loop: build the map, test the selection, then count. */
  method LegacyRow(sel: set<String>, r: FacetRow, comics: seq<FanComic>, tc0: map<String, TagStat>)
    returns (entry: seq<MatchEntry>, tc: map<String, TagStat>)
    ensures entry == if LegacyMatch(sel, r) then [EntryOf(r, comics)] else []
    ensures tc == TallySeries(tc0, map[], [], LegacyNorms(sel, r), r)
  {
    var cm := BuildCombined(r);
    if sel <= cm.Keys {
      entry := [EntryOf(r, comics)];
      forall j | j in cm ensures LowerStr(cm[j]) == j {
        DisplayLowersToKey(r, j);
      }
      tc := CountRelated(tc0, sel, cm, r);
    } else {
      entry := [];
      TallyNothing(tc0, r);
      tc := tc0;
    }
  }

  /** `database.get_series_by_tags`. */
  method LegacySeriesByTags(selected: seq<String>, rows: seq<FacetRow>, comics: seq<FanComic>)
    returns (report: FacetReport, ghost keys: seq<String>)
    ensures report.series == LegacyEntries(SelectedSet(selected), rows, comics)
    ensures report.matchingCount == |report.series|
    ensures var tc := LegacyStats(SelectedSet(selected), rows);
            Distinct(keys) && Elems(keys) == tc.Keys
            && SortedBy(report.related, RankLess)
            && multiset(report.related) == multiset(ValuesAt(tc, keys))
  {
    var sel := set t | t in selected :: LowerStr(t);
    var matching: seq<MatchEntry> := [];
    var tc: map<String, TagStat> := map[];
    var i := 0;
    while i < |rows|
      invariant 0 <= i <= |rows|
      invariant matching == LegacyEntries(sel, rows[..i], comics)
      invariant tc == LegacyStats(sel, rows[..i])
    {
      var entry;
      LegacyStep(sel, rows, comics, i);
      entry, tc := LegacyRow(sel, rows[i], comics, tc);
      matching := matching + entry;
      i := i + 1;
    }
    assert rows[..i] == rows;
    var related;
    related, keys := Rank(tc);
    report := FacetReport(|matching|, related, matching);
  }
}
