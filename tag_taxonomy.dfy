/** The tag taxonomy behind the tag facets: every genre, tag and demographic
    named by some series, normalised; the display spelling chosen for each; the
    multi-word tags that contain a shorter tag as a whole word ("isekai fantasy"
    contains "fantasy"); and an index of the tags by their first word. The three
    structures are cached until the series table changes. */
module TagTaxonomy {
  import opened Text
  import opened Wrappers
  import opened Collections

  /** `normalize_tag`: runs of whitespace collapsed to one space, ends trimmed, lower case. */
  function NormalizeTag(t: String): (r: String)
    ensures forall i :: 0 <= i < |r| ==> !IsUpper(r[i])
  {
    if t == [] then [] else LowerStr(Join(" ", Words(t)))
  }

  /** A normalised tag is its own normal form. */
  lemma NormalizeTagIdempotent(t: String)
    ensures NormalizeTag(NormalizeTag(t)) == NormalizeTag(t)
  {
    var n := NormalizeTag(t);
    if t != [] && n != [] {
      var ws := Words(t);
      var lw := LowerAll(ws);
      assert n == Join(" ", lw) by { LowerJoin(ws); }
      assert Words(n) == lw by {
        LowerAllAreWords(ws);
        WordsOfJoin(lw);
      }
      assert LowerStr(n) == n by { LowerStrIsLowered(Join(" ", ws)); }
    }
  }

  /** Spellings that differ only in case and spacing share one normal form. */
  lemma NormalizeTagIgnoresCase(t: String)
    ensures NormalizeTag(LowerStr(t)) == NormalizeTag(t)
  {
    if t != [] {
      LowerWords(t);
      LowerJoin(Words(t));
      LowerJoin(LowerAll(Words(t)));
      assert LowerAll(LowerAll(Words(t))) == LowerAll(Words(t)) by {
        forall k | 0 <= k < |Words(t)| ensures LowerAll(LowerAll(Words(t)))[k] == LowerAll(Words(t))[k] {
          LowerStrIsLowered(Words(t)[k]);
        }
      }
    }
  }

  /** Lower-casing changes no whitespace, so it commutes with `split()`. */
  lemma {:induction false} LowerWords(s: String)
    ensures Words(LowerStr(s)) == LowerAll(Words(s))
    decreases |s|
  {
    var ls := LowerStr(s);
    LowerStripLeft(s);
    var t := StripLeft(s);
    var lt := LowerStr(t);
    assert StripLeft(ls) == lt;
    if t != [] {
      var n := WordLength(t);
      LowerWordLength(t);
      assert Words(ls) == [lt[..n]] + Words(lt[n..]);
      LowerSlices(t, n);
      LowerWords(t[n..]);
      assert Words(s) == [t[..n]] + Words(t[n..]);
      LowerAllCons(t[..n], Words(t[n..]));
    }
  }

  lemma LowerSlices(s: String, n: nat)
    requires n <= |s|
    ensures LowerStr(s)[..n] == LowerStr(s[..n])
    ensures LowerStr(s)[n..] == LowerStr(s[n..])
  {
    assert forall k :: 0 <= k < |s| - n ==> LowerStr(s)[n..][k] == Lower(s[n + k]);
  }

  lemma LowerAllCons(w: String, ws: seq<String>)
    ensures LowerAll([w] + ws) == [LowerStr(w)] + LowerAll(ws)
  {
  }

  lemma {:induction false} LowerStripLeft(s: String)
    ensures StripLeft(LowerStr(s)) == LowerStr(StripLeft(s))
    decreases |s|
  {
    if s == [] {
    } else if IsSpace(s[0]) {
      var ls := LowerStr(s);
      assert ls[0] == s[0];
      assert ls[1..] == LowerStr(s[1..]);
      LowerStripLeft(s[1..]);
    } else {
      assert !IsSpace(LowerStr(s)[0]);
    }
  }

  lemma {:induction false} LowerWordLength(s: String)
    ensures WordLength(LowerStr(s)) == WordLength(s)
    decreases |s|
  {
    if s != [] && !IsSpace(s[0]) {
      assert LowerStr(s)[1..] == LowerStr(s[1..]);
      LowerWordLength(s[1..]);
    }
  }

  /** One of the three JSON list columns of a series row, as `json.loads` sees it. */
  datatype TagColumn =
    | NullColumn                      // NULL or the empty string: skipped
    | ListColumn(items: seq<String>)  // a JSON list of strings
    | BadJson                         // text `json.loads` rejects

  /** `SELECT genres, tags, demographics FROM series`, one row. */
  datatype TagRow = TagRow(genres: TagColumn, tags: TagColumn, demographics: TagColumn)

  function ColumnItems(c: TagColumn): seq<String> {
    if c.ListColumn? then c.items else []
  }

  /** The `combined` list of one row: the columns in order, up to the first one
      that fails to decode (the `try` block ends there). */
  function Combined(r: TagRow): (ts: seq<String>)
    ensures !r.genres.BadJson? && !r.tags.BadJson? && !r.demographics.BadJson? ==>
              ts == ColumnItems(r.genres) + ColumnItems(r.tags) + ColumnItems(r.demographics)
    ensures r.genres.BadJson? ==> ts == []
  {
    if r.genres.BadJson? then []
    else if r.tags.BadJson? then ColumnItems(r.genres)
    else if r.demographics.BadJson? then ColumnItems(r.genres) + ColumnItems(r.tags)
    else ColumnItems(r.genres) + ColumnItems(r.tags) + ColumnItems(r.demographics)
  }

  /** Every tag spelling of every row, in row order. */
  function AllSpellings(rows: seq<TagRow>): seq<String>
    decreases |rows|
  {
    if rows == [] then [] else AllSpellings(rows[..|rows| - 1]) + Combined(rows[|rows| - 1])
  }

  predicate StartsUpper(s: String) { s != [] && IsUpper(s[0]) }

  /** One step of building `system_tags`: the first spelling of a tag is kept,
      unless a later one is capitalised while the kept one is not. */
  function AddSpelling(m: map<String, String>, t: String): map<String, String> {
    if t == [] then m
    else
      var n := NormalizeTag(t);
      if n !in m then m[n := t]
      else if StartsUpper(t) && !StartsUpper(m[n]) then m[n := t]
      else m
  }

  function AddSpellings(m: map<String, String>, ts: seq<String>): map<String, String>
    decreases |ts|
  {
    if ts == [] then m else AddSpelling(AddSpellings(m, ts[..|ts| - 1]), ts[|ts| - 1])
  }

  /** `system_tags`: normal form to display spelling. */
  function SystemTags(rows: seq<TagRow>): map<String, String> {
    AddSpellings(map[], AllSpellings(rows))
  }

  /** The normal forms in the order they first appear (the dict's key order). */
  function KeyOrder(ts: seq<String>): seq<String>
    decreases |ts|
  {
    if ts == [] then []
    else
      var init := ts[..|ts| - 1];
      var t := ts[|ts| - 1];
      if t != [] && NormalizeTag(t) !in AddSpellings(map[], init) then KeyOrder(init) + [NormalizeTag(t)]
      else KeyOrder(init)
  }

  // ----- the display spelling, defined independently of the fold

  /** The non-empty spellings in `ts` whose normal form is `n`, in order. */
  function SpellingsOf(n: String, ts: seq<String>): (ss: seq<String>)
    ensures forall k :: 0 <= k < |ss| ==> ss[k] in ts && ss[k] != [] && NormalizeTag(ss[k]) == n
    decreases |ts|
  {
    if ts == [] then []
    else
      var t := ts[|ts| - 1];
      SpellingsOf(n, ts[..|ts| - 1]) + (if t != [] && NormalizeTag(t) == n then [t] else [])
  }

  function FirstCapitalised(ss: seq<String>): (r: Option<String>)
    ensures r.Some? ==> r.value in ss && StartsUpper(r.value)
    ensures r.None? ==> forall k :: 0 <= k < |ss| ==> !StartsUpper(ss[k])
  {
    if ss == [] then None
    else if StartsUpper(ss[0]) then Some(ss[0])
    else FirstCapitalised(ss[1..])
  }

  /** The display spelling: the first capitalised spelling, or else the first spelling. */
  function Display(ss: seq<String>): (d: String)
    requires ss != []
    ensures d in ss
  {
    match FirstCapitalised(ss)
    case Some(x) => x
    case None => ss[0]
  }

  lemma {:induction false} FirstCapitalisedAppend(ss: seq<String>, x: String)
    ensures FirstCapitalised(ss + [x]) ==
              if FirstCapitalised(ss).Some? then FirstCapitalised(ss)
              else if StartsUpper(x) then Some(x) else None
    decreases |ss|
  {
    if ss != [] {
      assert (ss + [x])[1..] == ss[1..] + [x];
      FirstCapitalisedAppend(ss[1..], x);
    }
  }

  /** The fold chooses exactly the display spelling: a tag is present iff some
      row spells it, and it shows the first capitalised spelling if any. */
  lemma {:induction false} SystemTagsDisplay(ts: seq<String>, n: String)
    ensures n in AddSpellings(map[], ts) <==> SpellingsOf(n, ts) != []
    ensures n in AddSpellings(map[], ts) ==> AddSpellings(map[], ts)[n] == Display(SpellingsOf(n, ts))
    decreases |ts|
  {
    if ts != [] {
      var init, t := ts[..|ts| - 1], ts[|ts| - 1];
      SystemTagsDisplay(init, n);
      var m, ss := AddSpellings(map[], init), SpellingsOf(n, init);
      assert AddSpellings(map[], ts) == AddSpelling(m, t);
      if t != [] && NormalizeTag(t) == n {
        assert SpellingsOf(n, ts) == ss + [t];
        DisplayStepMatch(m, ss, t, n);
      } else {
        assert SpellingsOf(n, ts) == ss;
        DisplayStepOther(m, t, n);
      }
    }
  }

  /** A spelling of `n` keeps the display spelling of the spellings so far plus itself. */
  lemma DisplayStepMatch(m: map<String, String>, ss: seq<String>, t: String, n: String)
    requires t != [] && NormalizeTag(t) == n
    requires n in m <==> ss != []
    requires n in m ==> m[n] == Display(ss)
    ensures n in AddSpelling(m, t) && AddSpelling(m, t)[n] == Display(ss + [t])
  {
    if ss != [] {
      FirstCapitalisedAppend(ss, t);
      assert (ss + [t])[0] == ss[0];
    } else {
      assert ss + [t] == [t];
    }
  }

  /** A spelling of another tag leaves the entry for `n` alone. */
  lemma DisplayStepOther(m: map<String, String>, t: String, n: String)
    requires !(t != [] && NormalizeTag(t) == n)
    ensures n in AddSpelling(m, t) <==> n in m
    ensures n in m ==> AddSpelling(m, t)[n] == m[n]
  {
    if t != [] {
      var k := NormalizeTag(t);
      assert k != n;
      assert AddSpelling(m, t) == m || AddSpelling(m, t) == m[k := t];
    }
  }

  /** Every display spelling normalises to its key. */
  lemma DisplayNormalises(rows: seq<TagRow>, n: String)
    requires n in SystemTags(rows)
    ensures NormalizeTag(SystemTags(rows)[n]) == n
    ensures SystemTags(rows)[n] in AllSpellings(rows)
  {
    SystemTagsDisplay(AllSpellings(rows), n);
  }

  /** A capitalised spelling always wins over lower-case ones, whatever their order. */
  lemma CapitalisedWins(rows: seq<TagRow>, n: String, k: nat)
    requires k < |SpellingsOf(n, AllSpellings(rows))|
    requires StartsUpper(SpellingsOf(n, AllSpellings(rows))[k])
    ensures n in SystemTags(rows) && StartsUpper(SystemTags(rows)[n])
  {
    var ss := SpellingsOf(n, AllSpellings(rows));
    SystemTagsDisplay(AllSpellings(rows), n);
  }

  lemma {:induction false} KeyOrderIsKeys(ts: seq<String>)
    ensures forall n :: n in KeyOrder(ts) <==> n in AddSpellings(map[], ts)
    ensures forall i, j :: 0 <= i < j < |KeyOrder(ts)| ==> KeyOrder(ts)[i] != KeyOrder(ts)[j]
    decreases |ts|
  {
    if ts != [] {
      KeyOrderIsKeys(ts[..|ts| - 1]);
    }
  }

  // ----- sorting (`sorted`)

  predicate StrictlySorted(xs: seq<String>) {
    forall i, j :: 0 <= i < j < |xs| ==> LexLess(xs[i], xs[j])
  }

  function Insert(x: String, xs: seq<String>): (r: seq<String>)
    requires StrictlySorted(xs) && x !in xs
    ensures multiset(r) == multiset(xs) + multiset{x}
    ensures StrictlySorted(r)
  {
    if xs == [] then [x]
    else if LexLess(x, xs[0]) then
      assert forall j :: 0 <= j < |xs| ==> LexLess(x, xs[j]) by {
        forall j | 0 <= j < |xs| ensures LexLess(x, xs[j]) {
          if j > 0 { LexLessTransitive(x, xs[0], xs[j]); }
        }
      }
      [x] + xs
    else
      LexLessTotal(x, xs[0]);
      var rest := Insert(x, xs[1..]);
      assert xs == [xs[0]] + xs[1..];
      assert forall j :: 0 <= j < |rest| ==> LexLess(xs[0], rest[j]) by {
        forall j | 0 <= j < |rest| ensures LexLess(xs[0], rest[j]) {
          assert rest[j] in multiset(rest);
          if rest[j] != x {
            assert rest[j] in multiset(xs[1..]);
            var k :| 0 <= k < |xs[1..]| && xs[1..][k] == rest[j];
            assert LexLess(xs[0], xs[k + 1]);
          }
        }
      }
      [xs[0]] + rest
  }

  /** `sorted(xs)` for distinct strings. */
  function SortStrings(xs: seq<String>): (r: seq<String>)
    requires forall i, j :: 0 <= i < j < |xs| ==> xs[i] != xs[j]
    ensures multiset(r) == multiset(xs)
    ensures StrictlySorted(r)
    decreases |xs|
  {
    if xs == [] then []
    else
      var init := xs[..|xs| - 1];
      assert xs == init + [xs[|xs| - 1]];
      var sorted := SortStrings(init);
      assert xs[|xs| - 1] !in multiset(init);
      assert xs[|xs| - 1] !in multiset(sorted);
      Insert(xs[|xs| - 1], sorted)
  }

  lemma SortedDistinct(xs: seq<String>)
    requires StrictlySorted(xs)
    ensures forall i, j :: 0 <= i < j < |xs| ==> xs[i] != xs[j]
  {
    forall i, j | 0 <= i < j < |xs| ensures xs[i] != xs[j] {
      if xs[i] == xs[j] { LexLessIrreflexive(xs[i]); }
    }
  }

  /** `sorted(system_tags.keys())`. */
  function AllNorms(rows: seq<TagRow>): (r: seq<String>)
    ensures StrictlySorted(r)
    ensures forall n :: n in r <==> n in SystemTags(rows)
  {
    var ts := AllSpellings(rows);
    KeyOrderIsKeys(ts);
    var r := SortStrings(KeyOrder(ts));
    assert forall n :: n in r <==> n in KeyOrder(ts) by {
      forall n ensures n in r <==> n in KeyOrder(ts) {
        assert n in r <==> n in multiset(r);
        assert n in KeyOrder(ts) <==> n in multiset(KeyOrder(ts));
      }
    }
    r
  }

  // ----- containment: `\b<parent>\b` inside a longer multi-word tag

  /** Whether position `i` of `s` holds a `\w` character (out of range: no). */
  predicate WordCharAt(s: String, i: int) {
    0 <= i < |s| && IsWordChar(s[i])
  }

  /** `\b` at position `i`: a word character on exactly one side. */
  predicate Boundary(s: String, i: int) {
    WordCharAt(s, i - 1) != WordCharAt(s, i)
  }

  /** `re.search(r'\b' + re.escape(p) + r'\b', s)` succeeds. */
  predicate ContainsWord(s: String, p: String) {
    exists i {:trigger OccursAt(s, p, i)} ::
      0 <= i <= |s| - |p| && OccursAt(s, p, i) && Boundary(s, i) && Boundary(s, i + |p|)
  }

  /** The test applied to each candidate parent: strictly shorter, found as whole words. */
  predicate ShorterWordIn(parent: String, child: String) {
    |parent| < |child| && ContainsWord(child, parent)
  }

  /** `parent` is recorded as contained in `child`, which must have several words. */
  predicate IsParent(parent: String, child: String) {
    |Words(child)| > 1 && ShorterWordIn(parent, child)
  }

  /** The tags of `norms` recorded as parents of `child`. */
  function ParentsIn(norms: seq<String>, child: String): (ps: set<String>)
  {
    if |Words(child)| > 1 then Candidates(norms, child) else {}
  }

  /** The tags of `norms` that pass the per-candidate test for `child`. */
  function Candidates(norms: seq<String>, child: String): set<String> {
    FilterSet(norms, p => ShorterWordIn(p, child))
  }

  /** The parents are exactly the listed tags that pass the containment test. */
  lemma ParentsInMembers(norms: seq<String>, child: String, p: String)
    ensures p in ParentsIn(norms, child) <==> p in norms && IsParent(p, child)
  {
    FilterSetMembers(norms, p => ShorterWordIn(p, child), p);
  }

  lemma CandidatesStep(done: seq<String>, parent: String, child: String)
    ensures Candidates(done + [parent], child) ==
              Candidates(done, child) + (if ShorterWordIn(parent, child) then {parent} else {})
  {
    FilterSetSnoc(done, p => ShorterWordIn(p, child), parent);
  }

  /** The entries for the children listed in `children`: only those with at least one parent. */
  function ContainmentOf(norms: seq<String>, children: seq<String>): (cm: map<String, set<String>>)
    ensures forall c :: c in cm <==> c in children && ParentsIn(norms, c) != {}
    ensures forall c :: c in cm ==> cm[c] == ParentsIn(norms, c)
    decreases |children|
  {
    if children == [] then map[]
    else
      var init, c := children[..|children| - 1], children[|children| - 1];
      assert children == init + [c];
      var ps := ParentsIn(norms, c);
      if ps != {} then ContainmentOf(norms, init)[c := ps] else ContainmentOf(norms, init)
  }

  /** `containment_map`. */
  function Containment(norms: seq<String>): (cm: map<String, set<String>>)
    ensures forall c :: c in cm <==> c in norms && ParentsIn(norms, c) != {}
    ensures forall c :: c in cm ==> cm[c] == ParentsIn(norms, c)
  {
    ContainmentOf(norms, norms)
  }

  lemma ContainmentStep(norms: seq<String>, done: seq<String>, c: String)
    ensures ContainmentOf(norms, done + [c]) ==
              if ParentsIn(norms, c) != {} then ContainmentOf(norms, done)[c := ParentsIn(norms, c)]
              else ContainmentOf(norms, done)
  {
    var children := done + [c];
    assert children[..|children| - 1] == done && children[|children| - 1] == c;
  }

  /** `containment_map.get(t, [])`. */
  function ParentsOf(cm: map<String, set<String>>, t: String): set<String> {
    if t in cm then cm[t] else {}
  }

  /** Containment only ever goes from a longer multi-word tag to a strictly
      shorter one, so no tag contains itself and no two tags contain each other. */
  lemma ContainmentIsStrict(norms: seq<String>, a: String, b: String)
    requires b in ParentsOf(Containment(norms), a)
    ensures |b| < |a| && |Words(a)| > 1
    ensures a !in ParentsOf(Containment(norms), b)
  {
    ParentsInMembers(norms, a, b);
    ParentsInMembers(norms, b, a);
  }

  /** A one-word tag has no parents. */
  lemma SingleWordHasNoParents(norms: seq<String>, t: String)
    requires |Words(t)| <= 1
    ensures ParentsOf(Containment(norms), t) == {}
  {
  }

  lemma TwoWords(a: String, b: String)
    requires a != [] && b != [] && HasNoSpace(a) && HasNoSpace(b)
    ensures |Words(a + " " + b)| == 2
  {
    var ws: seq<String> := [a, b];
    assert AreWords(ws);
    WordsOfJoin(ws);
    assert Join(" ", ws) == a + " " + b;
  }

  /** A tag that ends a two-word tag is recorded as its parent ("fantasy" in
      "isekai fantasy"), provided it begins and ends with word characters. */
  lemma LastWordIsParent(w: String, p: String)
    requires w != [] && p != [] && HasNoSpace(w) && HasNoSpace(p)
    requires IsWordChar(p[0]) && IsWordChar(p[|p| - 1])
    ensures IsParent(p, w + " " + p)
  {
    var c := w + " " + p;
    assert |Words(c)| > 1 by { TwoWords(w, p); }
    assert ShorterWordIn(p, c) by { WordAtEnd(w + " ", p); }
  }

  /** A tag after a space at the end of a longer string occurs in it as whole words. */
  lemma WordAtEnd(h: String, p: String)
    requires h != [] && h[|h| - 1] == ' ' && p != []
    requires IsWordChar(p[0]) && IsWordChar(p[|p| - 1])
    ensures ShorterWordIn(p, h + p)
  {
    var c := h + p;
    assert c[|h|..|h| + |p|] == c[|h|..];
    assert c[|h| - 1] == ' ' && c[|h|] == p[0] && c[|c| - 1] == p[|p| - 1];
    assert OccursAt(c, p, |h|);
  }

  /** Likewise for the tag that starts a two-word tag ("isekai" in "isekai fantasy"). */
  lemma FirstWordIsParent(p: String, w: String)
    requires w != [] && p != [] && HasNoSpace(w) && HasNoSpace(p)
    requires IsWordChar(p[0]) && IsWordChar(p[|p| - 1])
    ensures IsParent(p, p + " " + w)
  {
    var c := p + " " + w;
    assert |Words(c)| > 1 by { TwoWords(p, w); }
    assert ShorterWordIn(p, c) by { WordAtStart(p, w); }
  }

  /** A tag followed by a space at the start of a longer string occurs in it as whole words. */
  lemma WordAtStart(p: String, w: String)
    requires p != []
    requires IsWordChar(p[0]) && IsWordChar(p[|p| - 1])
    ensures ShorterWordIn(p, p + " " + w)
  {
    var c := p + " " + w;
    assert c[..|p|] == p;
    assert c[0] == p[0] && c[|p| - 1] == p[|p| - 1] && c[|p|] == ' ';
    assert OccursAt(c, p, 0);
  }

  /** An occurrence that runs on into a longer word is not a whole-word match
      ("fantasy" at the start of "fantasyland x"). */
  lemma NoMatchInsideLongerWord(s: String, p: String, i: nat)
    requires OccursAt(s, p, i) && p != [] && IsWordChar(p[|p| - 1])
    requires i + |p| < |s| && IsWordChar(s[i + |p|])
    ensures !Boundary(s, i + |p|)
  {
    assert s[i + |p| - 1] == s[i..i + |p|][|p| - 1];
  }

  // ----- the first-word index

  /** The first word of a tag (`norm.split()[0]`), or empty when it has none. */
  function FirstWord(n: String): String {
    if Words(n) == [] then [] else Words(n)[0]
  }

  /** `tag_lookup`: tags of three or more characters, listed under their first word. */
  function Lookup(norms: seq<String>): map<String, seq<String>>
    decreases |norms|
  {
    if norms == [] then map[]
    else
      var m := Lookup(norms[..|norms| - 1]);
      var n := norms[|norms| - 1];
      if |n| >= 3 then
        var w := FirstWord(n);
        m[w := (if w in m then m[w] else []) + [n]]
      else m
  }

  /** The index lists exactly the long-enough tags under exactly their first word, in the given order. */
  lemma {:induction false} LookupMembers(norms: seq<String>, w: String, n: String)
    ensures (w in Lookup(norms) && n in Lookup(norms)[w]) <==> n in norms && |n| >= 3 && FirstWord(n) == w
    ensures w in Lookup(norms) ==> Lookup(norms)[w] != []
    decreases |norms|
  {
    if norms != [] {
      var init := norms[..|norms| - 1];
      LookupMembers(init, w, n);
      assert norms == init + [norms[|norms| - 1]];
    }
  }

  /** `_TAG_CACHE`: the three structures, all absent until built. */
  class TagCache {
    var systemTags: Option<map<String, String>>
    var containment: Option<map<String, set<String>>>
    var lookup: Option<map<String, seq<String>>>
    var lastUpdated: int

    constructor()
      ensures systemTags.None? && containment.None? && lookup.None? && lastUpdated == 0
    {
      systemTags := None;
      containment := None;
      lookup := None;
      lastUpdated := 0;
    }

    /** The cache holds what the given series rows determine. */
    ghost predicate BuiltFrom(rows: seq<TagRow>)
      reads this
    {
      systemTags == Some(SystemTags(rows))
      && containment == Some(Containment(AllNorms(rows)))
      && lookup == Some(Lookup(AllNorms(rows)))
    }

    /** `_refresh_tag_cache`: nothing happens while `system_tags` is present;
        otherwise all three structures are rebuilt from the rows. */
    method Refresh(rows: seq<TagRow>, now: int)
      modifies this
      ensures old(systemTags).Some? ==>
                systemTags == old(systemTags) && containment == old(containment)
                && lookup == old(lookup) && lastUpdated == old(lastUpdated)
      ensures old(systemTags).None? ==> BuiltFrom(rows) && lastUpdated == now
    {
      if systemTags.Some? {
        return;
      }
      var tags, order := BuildSystemTags(rows);
      KeyOrderIsKeys(AllSpellings(rows));
      var norms := SortStrings(order);
      assert norms == AllNorms(rows);
      SortedDistinct(norms);
      var cm := BuildContainment(norms);
      var lk := BuildLookup(norms);
      systemTags := Some(tags);
      containment := Some(cm);
      lookup := Some(lk);
      lastUpdated := now;
    }

    /** `invalidate_tag_cache`. */
    method Invalidate()
      modifies this
      ensures systemTags.None? && containment.None? && lookup.None? && lastUpdated == 0
    {
      systemTags := None;
      containment := None;
      lookup := None;
      lastUpdated := 0;
    }
  }

  lemma SpellingStep(ts: seq<String>, t: String)
    ensures AddSpellings(map[], ts + [t]) == AddSpelling(AddSpellings(map[], ts), t)
    ensures KeyOrder(ts + [t]) ==
              if t != [] && NormalizeTag(t) !in AddSpellings(map[], ts) then KeyOrder(ts) + [NormalizeTag(t)]
              else KeyOrder(ts)
  {
    assert (ts + [t])[..|ts|] == ts;
  }

  /** The first loop of `_refresh_tag_cache`: `system_tags`, with its keys in insertion order. */
  method BuildSystemTags(rows: seq<TagRow>) returns (tags: map<String, String>, order: seq<String>)
    ensures tags == SystemTags(rows)
    ensures order == KeyOrder(AllSpellings(rows))
  {
    tags := map[];
    order := [];
    var i := 0;
    while i < |rows|
      invariant 0 <= i <= |rows|
      invariant tags == AddSpellings(map[], AllSpellings(rows[..i]))
      invariant order == KeyOrder(AllSpellings(rows[..i]))
    {
      assert rows[..i + 1][..i] == rows[..i];
      tags, order := AddRowSpellings(tags, order, Combined(rows[i]), AllSpellings(rows[..i]));
      i := i + 1;
    }
    assert rows[..|rows|] == rows;
  }

  /** The body of the inner loop: one spelling `t`. */
  method AddOneSpelling(tags0: map<String, String>, order0: seq<String>, t: String)
    returns (tags: map<String, String>, order: seq<String>)
    ensures tags == AddSpelling(tags0, t)
    ensures order == if t != [] && NormalizeTag(t) !in tags0 then order0 + [NormalizeTag(t)] else order0
  {
    tags, order := tags0, order0;
    if t != [] {
      var norm := NormalizeTag(t);
      if norm !in tags {
        tags := tags[norm := t];
        order := order + [norm];
      } else if StartsUpper(t) && !StartsUpper(tags[norm]) {
        tags := tags[norm := t];
      }
    }
  }

  /** The inner loop: the spellings of one row, in order. */
  method AddRowSpellings(tags0: map<String, String>, order0: seq<String>, combined: seq<String>,
                         ghost done: seq<String>)
    returns (tags: map<String, String>, order: seq<String>)
    requires tags0 == AddSpellings(map[], done) && order0 == KeyOrder(done)
    ensures tags == AddSpellings(map[], done + combined)
    ensures order == KeyOrder(done + combined)
  {
    tags, order := tags0, order0;
    ghost var sofar := done;
    assert done + combined[..0] == done;
    var j := 0;
    while j < |combined|
      invariant 0 <= j <= |combined|
      invariant sofar == done + combined[..j]
      invariant tags == AddSpellings(map[], sofar)
      invariant order == KeyOrder(sofar)
    {
      var t := combined[j];
      SpellingStep(sofar, t);
      tags, order := AddOneSpelling(tags, order, t);
      SliceSnoc(combined, j);
      assert done + combined[..j + 1] == sofar + [t];
      sofar := sofar + [t];
      j := j + 1;
    }
    assert combined[..|combined|] == combined;
  }

  /** The second loop: for every multi-word tag, the strictly shorter tags found in it as whole words. */
  method BuildContainment(norms: seq<String>) returns (cm: map<String, set<String>>)
    requires forall i, j :: 0 <= i < j < |norms| ==> norms[i] != norms[j]
    ensures cm == Containment(norms)
  {
    cm := map[];
    var i := 0;
    while i < |norms|
      invariant 0 <= i <= |norms|
      invariant cm == ContainmentOf(norms, norms[..i])
    {
      var child := norms[i];
      assert child !in norms[..i];
      ContainmentStep(norms, norms[..i], child);
      SliceSnoc(norms, i);
      if |Words(child)| > 1 {
        // the entry of the `defaultdict` appears with the first parent added
        var found := CollectParents(norms, child);
        if found != {} {
          cm := cm[child := found];
        }
      }
      i := i + 1;
    }
    assert norms[..|norms|] == norms;
  }

  /** The inner loop over the candidate parents of one child. */
  method CollectParents(norms: seq<String>, child: String) returns (found: set<String>)
    ensures found == Candidates(norms, child)
  {
    found := {};
    var j := 0;
    while j < |norms|
      invariant 0 <= j <= |norms|
      invariant found == Candidates(norms[..j], child)
    {
      var parent := norms[j];
      CandidatesStep(norms[..j], parent, child);
      SliceSnoc(norms, j);
      if |parent| < |child| && ContainsWord(child, parent) {
        found := found + {parent};
      }
      j := j + 1;
    }
    assert norms[..|norms|] == norms;
  }

  /** The third loop: `tag_lookup`. */
  method BuildLookup(norms: seq<String>) returns (lk: map<String, seq<String>>)
    ensures lk == Lookup(norms)
  {
    lk := map[];
    var i := 0;
    while i < |norms|
      invariant 0 <= i <= |norms|
      invariant lk == Lookup(norms[..i])
    {
      assert norms[..i + 1][..i] == norms[..i];
      var norm := norms[i];
      if |norm| >= 3 {
        var w := FirstWord(norm);
        var current := if w in lk then lk[w] else [];
        lk := lk[w := current + [norm]];
      }
      i := i + 1;
    }
    assert norms[..|norms|] == norms;
  }
}
