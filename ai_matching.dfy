/** routes/ai.py: the names searched for an AI recommendation, and how the
    recommendation is matched against the library. The database lookups
    and Unicode NFKC normalisation are functions given as parameters. */
module AiMatching {
  import opened Text
  import opened Wrappers
  import opened Collections

  // ---------------------------------------------------------------------------
  // _normalize_unicode
  // ---------------------------------------------------------------------------

  /** The characters AI models substitute, each with its replacement, in the
      order the dictionary lists them. */
  const Replacements: seq<(char, char)> := [
    ('\U{D7}', 'x'), ('\U{2013}', '-'), ('\U{2014}', '-'), ('\U{2018}', '\''),
    ('\U{2019}', '\''), ('\U{201C}', '"'), ('\U{201D}', '"'), ('\U{FF1A}', ':')
  ]

  /** `text.replace(a, b)` for single characters. */
  function ReplaceChar(text: String, a: char, b: char): (r: String)
    ensures |r| == |text|
  {
    seq(|text|, j requires 0 <= j < |text| => if text[j] == a then b else text[j])
  }

  /** What one character becomes after the replacements `ps`, in order. */
  function CharAfter(ps: seq<(char, char)>, c: char): char
    decreases |ps|
  {
    if ps == [] then c
    else
      var d := CharAfter(ps[..|ps| - 1], c);
      if d == ps[|ps| - 1].0 then ps[|ps| - 1].1 else d
  }

  /** The text after every replacement. */
  function Substituted(text: String): (r: String)
    ensures |r| == |text|
  {
    seq(|text|, j requires 0 <= j < |text| => CharAfter(Replacements, text[j]))
  }

  /** The replacements map each character independently: the dashes,
      quotes, multiplication sign and full-width colon become their ASCII
      forms and every other character stays. */
  lemma ReplacementOf(c: char)
    ensures CharAfter(Replacements, c) ==
            if c == '\U{D7}' then 'x'
            else if c == '\U{2013}' || c == '\U{2014}' then '-'
            else if c == '\U{2018}' || c == '\U{2019}' then '\''
            else if c == '\U{201C}' || c == '\U{201D}' then '"'
            else if c == '\U{FF1A}' then ':'
            else c
  {
    var p := Replacements;
    assert p[..1][..0] == [] && p[..1][0] == p[0] && p[0] == ('\U{D7}', 'x');
    var c1 := CharAfter(p[..1], c);
    assert CharAfter(p[..1][..0], c) == c;
    assert c1 == if c == '\U{D7}' then 'x' else c;
    assert p[..2][..1] == p[..1] && p[..2][1] == p[1];
    var c2 := CharAfter(p[..2], c);
    assert c2 == if c1 == '\U{2013}' then '-' else c1;
    assert p[..3][..2] == p[..2] && p[..3][2] == p[2];
    var c3 := CharAfter(p[..3], c);
    assert c3 == if c2 == '\U{2014}' then '-' else c2;
    assert p[..4][..3] == p[..3] && p[..4][3] == p[3];
    var c4 := CharAfter(p[..4], c);
    assert c4 == if c3 == '\U{2018}' then '\'' else c3;
    assert p[..5][..4] == p[..4] && p[..5][4] == p[4];
    var c5 := CharAfter(p[..5], c);
    assert c5 == if c4 == '\U{2019}' then '\'' else c4;
    assert p[..6][..5] == p[..5] && p[..6][5] == p[5];
    var c6 := CharAfter(p[..6], c);
    assert c6 == if c5 == '\U{201C}' then '"' else c5;
    assert p[..7][..6] == p[..6] && p[..7][6] == p[6];
    var c7 := CharAfter(p[..7], c);
    assert c7 == if c6 == '\U{201D}' then '"' else c6;
    assert p[..8][..7] == p[..7] && p[..8] == p && p[7] == ('\U{FF1A}', ':');
    assert CharAfter(p, c) == if c7 == '\U{FF1A}' then ':' else c7;
  }

  /** The substituted text holds none of the replaced characters. */
  lemma SubstitutedIsPlain(text: String)
    ensures forall j :: 0 <= j < |text| ==> Substituted(text)[j] !in {'\U{D7}', '\U{2013}', '\U{2014}', '\U{2018}', '\U{2019}', '\U{201C}', '\U{201D}', '\U{FF1A}'}
    ensures forall j :: 0 <= j < |text| && text[j] < '\U{80}' ==> Substituted(text)[j] == text[j]
  {
    forall j | 0 <= j < |text| ensures Substituted(text)[j] == CharAfter(Replacements, text[j]) {
    }
    forall j | 0 <= j < |text| ensures Substituted(text)[j] !in {'\U{D7}', '\U{2013}', '\U{2014}', '\U{2018}', '\U{2019}', '\U{201C}', '\U{201D}', '\U{FF1A}'}
                                      && (text[j] < '\U{80}' ==> Substituted(text)[j] == text[j]) {
      ReplacementOf(text[j]);
    }
  }

  /** `_normalize_unicode`: the replacements applied one after another,
      then NFKC. */
  method NormalizeUnicode(nfkc: String -> String, text: String) returns (r: String)
    ensures r == nfkc(Substituted(text))
  {
    var t := text;
    for i := 0 to |Replacements|
      invariant |t| == |text|
      invariant forall j :: 0 <= j < |t| ==> t[j] == CharAfter(Replacements[..i], text[j])
    {
      var (a, b) := Replacements[i];
      assert Replacements[..i + 1][..i] == Replacements[..i];
      t := ReplaceChar(t, a, b);
    }
    assert Replacements[..|Replacements|] == Replacements;
    assert t == Substituted(text);
    r := nfkc(t);
  }

  // ---------------------------------------------------------------------------
  // re.match(r'^(.+?)\s*\((.+?)\)\s*$', title)
  // ---------------------------------------------------------------------------

  predicate NoNewline(s: String) { forall i :: 0 <= i < |s| ==> s[i] != '\n' }

  predicate AllSpace(s: String) { forall i :: 0 <= i < |s| ==> IsSpace(s[i]) }

  /** `r` is spaces, "(", a non-empty group without a newline, ")", spaces. */
  predicate Shaped(r: String, w1: String, g: String, w2: String) {
    AllSpace(w1) && AllSpace(w2) && g != [] && NoNewline(g) && r == w1 + "(" + g + ")" + w2
  }

  /** `\s*\((.+?)\)\s*$` matched at the start of `r`: the second group. The
      leading spaces run up to the "(", and the lazy group can only end at
      the last ")", the one followed by nothing but spaces. */
  function TailGroup(r: String): (g: Option<String>)
    ensures g.Some? ==> Shaped(r, r[..SpaceRun(r)], g.value, r[|StripRight(r)|..])
  {
    var k := SpaceRun(r);
    var e := |StripRight(r)|;
    if k < |r| && r[k] == '(' && k + 3 <= e && r[e - 1] == ')' && NoNewline(r[k + 1..e - 1]) then
      assert r == r[..k] + "(" + r[k + 1..e - 1] + ")" + r[e..];
      Some(r[k + 1..e - 1])
    else None
  }

  lemma SpaceRunOf(r: String, n: nat)
    requires n < |r| && AllSpace(r[..n]) && !IsSpace(r[n])
    ensures SpaceRun(r) == n
  {
  }

  lemma StripRightOf(r: String, e: nat)
    requires 0 < e <= |r| && AllSpace(r[e..]) && !IsSpace(r[e - 1])
    ensures |StripRight(r)| == e
  {
  }

  /** Every way of writing `r` in that shape gives the group `TailGroup`
      finds, so the regex group is determined. */
  lemma {:induction false} TailGroupOf(r: String, w1: String, g: String, w2: String)
    requires Shaped(r, w1, g, w2)
    ensures TailGroup(r) == Some(g)
  {
    var k, e := |w1|, |r| - |w2|;
    assert r[..k] == w1 && r[k] == '(' && !IsSpace('(');
    SpaceRunOf(r, k);
    assert r[e..] == w2 && r[e - 1] == ')' && !IsSpace(')');
    StripRightOf(r, e);
    assert r[k + 1..e - 1] == g;
    assert k < |r| && k + 3 <= e && NoNewline(r[k + 1..e - 1]);
  }

  lemma TailGroupAfter(r: String, w: String, t: String, b: String, w2: String)
    requires r == w + t && t == "(" + b + ")" + w2
    requires AllSpace(w) && AllSpace(w2) && b != [] && NoNewline(b)
    ensures TailGroup(r) == Some(b)
  {
    assert r == w + "(" + b + ")" + w2;
    TailGroupOf(r, w, b, w2);
  }

  lemma PrefixSplit(s: String, i: nat, j: nat)
    requires i <= j <= |s|
    ensures s[..j] == s[..i] + s[i..j]
  {
  }

  lemma SliceSplit(s: String, i: nat, j: nat)
    requires i <= j <= |s|
    ensures s[i..] == s[i..j] + s[j..]
  {
  }

  /** Group 1 may end at `i`: it is non-empty, has no newline, and the rest
      matches. */
  predicate Splits(title: String, i: nat) {
    0 < i < |title| && NoNewline(title[..i]) && TailGroup(title[i..]).Some?
  }

  /** The first `j` in `i..n` that passes `p`. */
  function FirstWhere(p: nat -> bool, i: nat, n: nat): (r: Option<nat>)
    ensures r.Some? ==> i <= r.value < n
    decreases n - i
  {
    if n <= i then None
    else if p(i) then Some(i)
    else FirstWhere(p, i + 1, n)
  }

  lemma {:induction false} FirstWhereIsFirst(p: nat -> bool, i: nat, n: nat)
    ensures var r := FirstWhere(p, i, n);
            (r.Some? ==> p(r.value) && forall j :: i <= j < r.value ==> !p(j))
            && (r.None? ==> forall j :: i <= j < n ==> !p(j))
    decreases n - i
  {
    if i < n && !p(i) {
      FirstWhereIsFirst(p, i + 1, n);
    }
  }

  function SplitTest(title: String): nat -> bool {
    (j: nat) => Splits(title, j)
  }

  /** The lazy `.+?` of group 1: the first place where it may end. */
  function FirstSplit(title: String): (r: Option<nat>)
    ensures r.Some? ==> 1 <= r.value < |title|
  {
    FirstWhere(SplitTest(title), 1, |title|)
  }

  /** The search finds the first split, and only none when there is none. */
  lemma FirstSplitIsFirst(title: String)
    ensures var r := FirstSplit(title);
            (r.Some? ==> Splits(title, r.value) && forall j :: 1 <= j < r.value ==> !Splits(title, j))
            && (r.None? ==> forall j: nat :: !Splits(title, j))
  {
    var p := SplitTest(title);
    FirstWhereIsFirst(p, 1, |title|);
    var r := FirstSplit(title);
    if r.Some? {
      assert p(r.value);
      forall j | 1 <= j < r.value ensures !Splits(title, j) { assert !p(j); }
    } else {
      forall j: nat ensures !Splits(title, j) {
        if 1 <= j < |title| { assert !p(j); }
      }
    }
  }

  /** The two groups of the match, if the title matches. */
  function ParenGroups(title: String): (r: Option<(String, String)>)
  {
    match FirstSplit(title)
    case None => None
    case Some(i) =>
      assert Splits(title, i) by { FirstSplitIsFirst(title); }
      Some((title[..i], TailGroup(title[i..]).value))
  }

  /** The title matches iff group 1 can end somewhere. */
  lemma ParenGroupsMatch(title: String)
    ensures ParenGroups(title).Some? <==> exists i :: Splits(title, i)
  {
    FirstSplitIsFirst(title);
  }

  lemma {:induction false} StripRightSpaces(p: String, s: String)
    requires AllSpace(s)
    ensures StripRight(p + s) == StripRight(p)
    decreases |s|
  {
    if s != [] {
      var init := s[..|s| - 1];
      assert (p + s)[..|p + s| - 1] == p + init;
      StripRightSpaces(p, init);
    } else {
      assert p + s == p;
    }
  }

  lemma {:induction false} StripLeftSpaces(p: String, s: String)
    requires AllSpace(s)
    ensures StripLeft(p + s) == StripLeft(p) + s || (StripLeft(p) == [] && StripLeft(p + s) == StripLeft(s))
    decreases |p|
  {
    if p == [] {
      assert p + s == s;
    } else if IsSpace(p[0]) {
      assert (p + s)[1..] == p[1..] + s;
      StripLeftSpaces(p[1..], s);
    }
  }

  lemma {:induction false} StripLeftOfSpaces(s: String)
    requires AllSpace(s)
    ensures StripLeft(s) == []
    decreases |s|
  {
    if s != [] {
      StripLeftOfSpaces(s[1..]);
    }
  }

  /** Spaces added at the end change nothing once stripped. */
  lemma StripSpaces(p: String, s: String)
    requires AllSpace(s)
    ensures Strip(p + s) == Strip(p)
  {
    StripLeftSpaces(p, s);
    if StripLeft(p + s) == StripLeft(p) + s {
      StripRightSpaces(StripLeft(p), s);
    } else {
      StripLeftOfSpaces(s);
    }
  }

  /** A title "A (B)" whose A holds no "(": the match yields A (up to
      trailing spaces, which are stripped) and exactly B. */
  lemma ParenTitle(a: String, w1: String, b: String, w2: String)
    requires a != [] && NoNewline(a) && '(' !in a
    requires Shaped(w1 + "(" + b + ")" + w2, w1, b, w2)
    ensures var m := ParenGroups(a + w1 + "(" + b + ")" + w2);
            m.Some? && Strip(m.value.0) == Strip(a) && m.value.1 == b
  {
    var title := a + w1 + "(" + b + ")" + w2;
    var open := |a| + |w1|;
    ParenLayout(a, w1, b, w2);
    ParenTitleAt(title, a, open, b, w2);
  }

  /** Where the parts of "A (B)" sit in the title. */
  lemma ParenLayout(a: String, w1: String, b: String, w2: String)
    requires '(' !in a && AllSpace(w1)
    ensures var title := a + w1 + "(" + b + ")" + w2;
            var open := |a| + |w1|;
            open < |title| && title[..|a|] == a && title[open..] == "(" + b + ")" + w2
            && title[|a|..] == w1 + "(" + b + ")" + w2
            && (forall j :: 0 <= j < open ==> title[j] != '(')
            && (forall j :: |a| <= j < open ==> IsSpace(title[j]))
  {
    var title := a + w1 + "(" + b + ")" + w2;
    var open := |a| + |w1|;
    assert title == a + (w1 + ("(" + b + ")" + w2));
    forall j | 0 <= j < open ensures title[j] != '(' {
      if j < |a| { assert title[j] == a[j]; } else { assert title[j] == w1[j - |a|]; }
    }
  }

  /** The lazy group 1 stops before the spaces in front of the first "(". */
  lemma OpenAt(title: String, i: nat, open: nat)
    requires Splits(title, i) && i <= open < |title| && title[open] == '('
    requires forall j :: 0 <= j < open ==> title[j] != '('
    ensures AllSpace(title[i..open])
  {
    var r := title[i..];
    var k := SpaceRun(r);
    var g := TailGroup(r).value;
    assert r == r[..k] + "(" + g + ")" + r[|StripRight(r)|..];
    assert r[k] == '(';
    assert title[i + k] == '(';
    assert title[open] == r[open - i];
    assert !IsSpace(r[open - i]);
    assert k <= open - i;
    assert i + k >= open;
    forall j | 0 <= j < open - i ensures IsSpace(title[i..open][j]) {
      assert title[i..open][j] == r[j];
    }
  }

  lemma ParenTitleAt(title: String, a: String, open: nat, b: String, w2: String)
    requires a != [] && NoNewline(a) && |a| <= open < |title| && title[..|a|] == a
    requires title[open..] == "(" + b + ")" + w2 && AllSpace(w2) && b != [] && NoNewline(b)
    requires forall j :: 0 <= j < open ==> title[j] != '('
    requires forall j :: |a| <= j < open ==> IsSpace(title[j])
    ensures var m := ParenGroups(title);
            m.Some? && Strip(m.value.0) == Strip(a) && m.value.1 == b
  {
    var w1 := title[|a|..open];
    assert AllSpace(w1) by {
      forall j | 0 <= j < |w1| ensures IsSpace(w1[j]) { assert w1[j] == title[|a| + j]; }
    }
    SliceSplit(title, |a|, open);
    TailGroupAfter(title[|a|..], w1, title[open..], b, w2);
    assert Splits(title, |a|);
    FirstSplitIsFirst(title);
    var i := FirstSplit(title).value;
    var r := title[i..];
    OpenAt(title, i, open);
    var w := title[i..open];
    SliceSplit(title, i, open);
    TailGroupAfter(r, w, title[open..], b, w2);
    assert i <= |a|;
    PrefixSplit(title, i, |a|);
    assert AllSpace(title[i..|a|]) by {
      forall j | 0 <= j < |a| - i ensures IsSpace(title[i..|a|][j]) { assert title[i..|a|][j] == w[j]; }
    }
    StripSpaces(title[..i], title[i..|a|]);
  }

  // ---------------------------------------------------------------------------
  // title.split(':')[0]
  // ---------------------------------------------------------------------------

  /** The text before the first ":", the whole text when there is none. */
  function BeforeColon(s: String): (r: String)
    ensures ':' !in r
    ensures |r| <= |s| && r == s[..|r|]
    ensures |r| < |s| <==> ':' in s
    ensures |r| < |s| ==> s[|r|] == ':'
  {
    if s == [] || s[0] == ':' then [] else [s[0]] + BeforeColon(s[1..])
  }

  // ---------------------------------------------------------------------------
  // _extract_search_names
  // ---------------------------------------------------------------------------

  /** The normalised title, when normalising changes it. */
  function NormalizedPart(nfkc: String -> String, title: String): seq<String> {
    var normalized := nfkc(Substituted(title));
    if normalized != title then [normalized] else []
  }

  /** Both groups of "A (B)", stripped, when the title has that form. */
  function ParenPart(title: String): seq<String> {
    match ParenGroups(title)
    case Some((a, b)) => [Strip(a), Strip(b)]
    case None => []
  }

  /** The stripped text before the first ":", when there is one. */
  function ColonPart(title: String): seq<String> {
    if ':' in title then [Strip(BeforeColon(title))] else []
  }

  /** The names appended before de-duplication, in order. */
  function Candidates(nfkc: String -> String, title: String): (r: seq<String>)
    ensures r != [] && r[0] == title
  {
    [title] + NormalizedPart(nfkc, title) + ParenPart(title) + ColonPart(title)
  }

  /** First occurrences only, in order. */
  function Dedupe(xs: seq<String>): seq<String>
    decreases |xs|
  {
    if xs == [] then []
    else
      var d := Dedupe(xs[..|xs| - 1]);
      if xs[|xs| - 1] in d then d else d + [xs[|xs| - 1]]
  }

  /** `_extract_search_names`: the candidates appended in order, then
      de-duplicated. */
  method ExtractSearchNames(nfkc: String -> String, title: String) returns (deduped: seq<String>)
    ensures deduped == Dedupe(Candidates(nfkc, title))
  {
    var names := [title];
    var normalized := NormalizeUnicode(nfkc, title);
    if normalized != title {
      names := names + [normalized];
    }
    ghost var p1 := names;
    assert p1 == [title] + NormalizedPart(nfkc, title);
    var paren := ParenGroups(title);
    ParenStep(names, title);
    if paren.Some? {
      names := names + [Strip(paren.value.0)];
      names := names + [Strip(paren.value.1)];
    }
    ColonStep(names, title);
    if ':' in title {
      names := names + [Strip(BeforeColon(title))];
    }
    deduped := Deduplicate(names);
  }

  lemma ParenStep(names: seq<String>, title: String)
    ensures var paren := ParenGroups(title);
            (if paren.Some? then names + [Strip(paren.value.0)] + [Strip(paren.value.1)] else names)
            == names + ParenPart(title)
  {
  }

  lemma ColonStep(names: seq<String>, title: String)
    ensures (if ':' in title then names + [Strip(BeforeColon(title))] else names)
            == names + ColonPart(title)
  {
  }

  /** The loop over `names` with the `seen` set: each name is kept the first
      time it comes. */
  method Deduplicate(names: seq<String>) returns (deduped: seq<String>)
    ensures deduped == Dedupe(names)
  {
    var seen: set<String> := {};
    deduped := [];
    for i := 0 to |names|
      invariant deduped == Dedupe(names[..i])
      invariant seen == Elems(deduped)
    {
      assert names[..i + 1][..i] == names[..i];
      if names[i] !in seen {
        seen := seen + {names[i]};
        deduped := deduped + [names[i]];
      }
    }
    assert names[..|names|] == names;
  }

  /** The position of the first occurrence of `x`. */
  function FirstIndex(xs: seq<String>, x: String): (k: nat)
    requires x in xs
    ensures k < |xs| && xs[k] == x && x !in xs[..k]
  {
    if xs[0] == x then 0 else 1 + FirstIndex(xs[1..], x)
  }

  lemma FirstIndexSnoc(xs: seq<String>, y: String, x: String)
    requires x in xs
    ensures FirstIndex(xs + [y], x) == FirstIndex(xs, x)
  {
    var ys := xs + [y];
    var k := FirstIndex(xs, x);
    var k' := FirstIndex(ys, x);
    assert ys[k] == x;
    assert forall j :: 0 <= j < k' ==> ys[j] != x by {
      forall j | 0 <= j < k' ensures ys[j] != x { assert ys[..k'][j] == ys[j]; }
    }
    assert forall j :: 0 <= j < k ==> ys[j] != x by {
      forall j | 0 <= j < k ensures ys[j] != x { assert xs[..k][j] == ys[j]; }
    }
  }

  /** De-duplication keeps each name once, loses none, and keeps them in
      the order of their first occurrence. */
  lemma {:induction false} DedupeFacts(xs: seq<String>)
    ensures forall y :: y in Dedupe(xs) <==> y in xs
    ensures Distinct(Dedupe(xs))
    ensures forall i, j :: 0 <= i < j < |Dedupe(xs)| ==> FirstIndex(xs, Dedupe(xs)[i]) < FirstIndex(xs, Dedupe(xs)[j])
    decreases |xs|
  {
    if xs != [] {
      var init := xs[..|xs| - 1];
      var x := xs[|xs| - 1];
      DedupeFacts(init);
      var d := Dedupe(init);
      assert xs == init + [x];
      forall y | y in d ensures FirstIndex(xs, y) == FirstIndex(init, y) {
        FirstIndexSnoc(init, x, y);
      }
      if x !in d {
        assert x !in init;
        assert FirstIndex(xs, x) == |init|;
        forall y | y in d ensures FirstIndex(xs, y) < |init| {
          FirstIndexSnoc(init, x, y);
        }
      }
    }
  }

  /** The first name searched is the recommendation's own title. */
  lemma {:induction false} DedupeHead(xs: seq<String>)
    requires xs != []
    ensures Dedupe(xs) != [] && Dedupe(xs)[0] == xs[0]
    decreases |xs|
  {
    if |xs| > 1 {
      var init := xs[..|xs| - 1];
      DedupeHead(init);
      assert init[0] == xs[0];
    }
  }

  lemma SearchNamesFacts(nfkc: String -> String, title: String)
    ensures var names := Dedupe(Candidates(nfkc, title));
            names != [] && names[0] == title && Distinct(names)
            && forall n :: n in names <==> n in Candidates(nfkc, title)
  {
    DedupeHead(Candidates(nfkc, title));
    DedupeFacts(Candidates(nfkc, title));
  }

  // ---------------------------------------------------------------------------
  // match_recommendation_to_library
  // ---------------------------------------------------------------------------

  /** A `series` row as far as matching reads it. */
  datatype Series = Series(id: int, name: String, title: Option<String>, cover: Option<String>)

  /** The lookups the route makes: `get_series_by_name`, the LIKE query
      over the four title columns, the LIKE query over `synonyms`, the
      first comic of a series, and NFKC normalisation. */
  datatype Library = Library(byName: String -> Option<Series>, like: String -> seq<Series>,
                             synonyms: String -> seq<Series>, firstComic: int -> Option<String>,
                             nfkc: String -> String)

  /** A library candidate listed for the user to choose from. */
  datatype Candidate = Candidate(id: int, name: Option<String>, cover: Option<String>)

  /** The recommendation after matching. */
  datatype Outcome =
    | Unchanged                                                      // no title
    | InLibrary(seriesId: int, seriesName: Option<String>, cover: Option<String>)
    | Multiple(matches: seq<Candidate>)                              // in_library = "multiple"
    | NotInLibrary

  /** `_enrich_series_match`: a missing or empty cover is looked up. */
  function Enrich(lib: Library, s: Series): (r: Series)
    ensures r.id == s.id && r.name == s.name && r.title == s.title
    ensures s.cover.Some? && s.cover.value != [] ==> r == s
  {
    if s.cover.Some? && s.cover.value != [] then s
    else match lib.firstComic(s.id)
      case Some(c) => s.(cover := Some(c))
      case None => s
  }

  /** `s.get('name') or s.get('title')`. */
  function DisplayName(s: Series): Option<String> {
    if s.name != [] then Some(s.name) else s.title
  }

  function Ids(rows: seq<Series>): set<int> {
    set r | r in rows :: r.id
  }

  lemma IdsSnoc(init: seq<Series>, x: Series)
    ensures Ids(init + [x]) == Ids(init) + {x.id}
  {
    var m := init + [x];
    assert m[|init|] == x;
    forall s | s in init ensures s in m {
      var j :| 0 <= j < |init| && init[j] == s;
      assert m[j] == s;
    }
  }

  predicate DistinctIds(m: seq<Series>) {
    forall i, j :: 0 <= i < j < |m| ==> m[i].id != m[j].id
  }

  /** `all_matches[r['id']] = r` on a dictionary keyed by id: an existing
      id keeps its place and takes the new row, a new id is added last. */
  function Put(m: seq<Series>, r: Series): (p: seq<Series>)
    requires DistinctIds(m)
    ensures DistinctIds(p) && Ids(p) == Ids(m) + {r.id} && r in p
    ensures forall s :: s in p ==> s == r || (s in m && s.id != r.id)
  {
    if exists k :: 0 <= k < |m| && m[k].id == r.id then
      var k :| 0 <= k < |m| && m[k].id == r.id;
      PutAt(m, r, k);
      m[k := r]
    else
      m + [r]
  }

  lemma PutAt(m: seq<Series>, r: Series, k: nat)
    requires DistinctIds(m) && k < |m| && m[k].id == r.id
    ensures var p := m[k := r];
            DistinctIds(p) && Ids(p) == Ids(m) + {r.id} && r in p
            && forall s :: s in p ==> s == r || (s in m && s.id != r.id)
  {
    var p := m[k := r];
    assert p[k] == r;
    forall s | s in p ensures s == r || (s in m && s.id != r.id) {
      var j :| 0 <= j < |p| && p[j] == s;
      if j != k { assert m[j] == s; }
    }
    forall s | s in m ensures s.id in Ids(p) {
      var j :| 0 <= j < |m| && m[j] == s;
      if j != k { assert p[j] == s; }
    }
  }

  /** The dictionary after `for r in rows: all_matches[r['id']] = dict(r)`. */
  function PutAll(m: seq<Series>, rows: seq<Series>): (p: seq<Series>)
    requires DistinctIds(m)
    ensures DistinctIds(p) && Ids(p) == Ids(m) + Ids(rows)
    decreases |rows|
  {
    if rows == [] then m
    else
      var init := rows[..|rows| - 1];
      assert Ids(rows) == Ids(init) + {rows[|rows| - 1].id} by {
        assert rows == init + [rows[|rows| - 1]];
        IdsSnoc(init, rows[|rows| - 1]);
      }
      Put(PutAll(m, init), rows[|rows| - 1])
  }

  /** The dictionary after the fuzzy searches of `names`. */
  function Gathered(lib: Library, names: seq<String>): (m: seq<Series>)
    ensures DistinctIds(m)
    decreases |names|
  {
    if names == [] then []
    else
      var n := names[|names| - 1];
      PutAll(PutAll(Gathered(lib, names[..|names| - 1]), lib.like(n)), lib.synonyms(n))
  }

  /** The ids of every fuzzy hit of `names`. */
  function HitIds(lib: Library, names: seq<String>): set<int>
    decreases |names|
  {
    if names == [] then {}
    else
      var n := names[|names| - 1];
      HitIds(lib, names[..|names| - 1]) + Ids(lib.like(n)) + Ids(lib.synonyms(n))
  }

  /** The fuzzy hits are unioned by id: one entry per series hit by any
      name through either query. */
  lemma {:induction false} GatheredIds(lib: Library, names: seq<String>)
    ensures Ids(Gathered(lib, names)) == HitIds(lib, names)
    ensures |Gathered(lib, names)| == |HitIds(lib, names)|
    decreases |names|
  {
    if names != [] {
      GatheredIds(lib, names[..|names| - 1]);
    }
    DistinctIdsCard(Gathered(lib, names));
  }

  lemma {:induction false} DistinctIdsCard(m: seq<Series>)
    requires DistinctIds(m)
    ensures |Ids(m)| == |m|
    decreases |m|
  {
    if m != [] {
      var init := m[..|m| - 1];
      DistinctIdsCard(init);
      assert m == init + [m[|m| - 1]];
      IdsSnoc(init, m[|m| - 1]);
      forall s | s in init ensures s.id != m[|m| - 1].id {
        var j :| 0 <= j < |init| && init[j] == s;
        assert m[j] == s;
      }
    }
  }

  /** The exact hit of the first name that has one. */
  function FirstExact(lib: Library, names: seq<String>): (r: Option<Series>)
    ensures r.None? <==> forall j :: 0 <= j < |names| ==> lib.byName(names[j]).None?
    ensures r.Some? ==> exists j :: 0 <= j < |names| && lib.byName(names[j]) == r
                                    && forall i :: 0 <= i < j ==> lib.byName(names[i]).None?
    decreases |names|
  {
    if names == [] then None
    else if lib.byName(names[0]).Some? then lib.byName(names[0])
    else
      var r := FirstExact(lib, names[1..]);
      assert r.Some? ==> exists j :: 0 <= j < |names| && lib.byName(names[j]) == r
                                     && forall i :: 0 <= i < j ==> lib.byName(names[i]).None? by {
        if r.Some? {
          var j :| 0 <= j < |names[1..]| && lib.byName(names[1..][j]) == r
                   && forall i :: 0 <= i < j ==> lib.byName(names[1..][i]).None?;
          assert forall i :: 0 <= i < j + 1 ==> lib.byName(names[i]).None? by {
            forall i | 0 <= i < j + 1 ensures lib.byName(names[i]).None? {
              if i > 0 { assert names[i] == names[1..][i - 1]; }
            }
          }
        }
      }
      assert r.None? ==> forall j :: 0 <= j < |names| ==> lib.byName(names[j]).None? by {
        if r.None? {
          forall j | 0 <= j < |names| ensures lib.byName(names[j]).None? {
            if j > 0 { assert names[j] == names[1..][j - 1]; }
          }
        }
      }
      r
  }

  /** The match found once the fuzzy hits are gathered. */
  function Classify(lib: Library, matches: seq<Series>): (r: Outcome)
    ensures r.Multiple? ==> |r.matches| == |matches| && forall i :: 0 <= i < |matches| ==> r.matches[i].id == matches[i].id
  {
    if |matches| == 1 then
      var s := Enrich(lib, matches[0]);
      InLibrary(s.id, DisplayName(s), s.cover)
    else if |matches| > 1 then
      Multiple(seq(|matches|, i requires 0 <= i < |matches| =>
        Candidate(matches[i].id, DisplayName(matches[i]), Enrich(lib, matches[i]).cover)))
    else NotInLibrary
  }

  /** The outcome for the search names of a titled recommendation. */
  function MatchNames(lib: Library, names: seq<String>): Outcome {
    match FirstExact(lib, names)
    case Some(s) =>
      var e := Enrich(lib, s);
      InLibrary(e.id, DisplayName(e), e.cover)
    case None => Classify(lib, Gathered(lib, names))
  }

  /** What `match_recommendation_to_library` makes of a recommendation. */
  function Matched(lib: Library, title: String): Outcome {
    if title == [] then Unchanged else MatchNames(lib, Dedupe(Candidates(lib.nfkc, title)))
  }

  /** No name of `ns` is a series name. */
  predicate Misses(lib: Library, ns: seq<String>) {
    forall j :: 0 <= j < |ns| ==> lib.byName(ns[j]).None?
  }

  lemma MissesSnoc(lib: Library, names: seq<String>, i: nat)
    requires i < |names| && Misses(lib, names[..i]) && lib.byName(names[i]).None?
    ensures Misses(lib, names[..i + 1])
  {
    var p := names[..i + 1];
    forall j | 0 <= j < |p| ensures lib.byName(p[j]).None? {
      if j < i { assert p[j] == names[..i][j]; }
    }
  }

  lemma FirstExactAt(lib: Library, names: seq<String>, i: nat)
    requires i < |names| && lib.byName(names[i]).Some?
    requires Misses(lib, names[..i])
    ensures FirstExact(lib, names) == lib.byName(names[i])
  {
    forall k | 0 <= k < i ensures lib.byName(names[k]).None? {
      assert names[..i][k] == names[k];
    }
    var r := FirstExact(lib, names);
    var j :| 0 <= j < |names| && lib.byName(names[j]) == r && forall k :: 0 <= k < j ==> lib.byName(names[k]).None?;
  }

  /** The fuzzy-hit loop body: `for r in rows: all_matches[r['id']] = dict(r)`. */
  method PutRows(m: seq<Series>, rows: seq<Series>) returns (p: seq<Series>)
    requires DistinctIds(m)
    ensures p == PutAll(m, rows)
  {
    p := m;
    for i := 0 to |rows|
      invariant p == PutAll(m, rows[..i])
    {
      assert rows[..i + 1][..i] == rows[..i];
      p := Put(p, rows[i]);
    }
    assert rows[..|rows|] == rows;
  }

  /** `match_recommendation_to_library`: the first exact name hit wins at
      once; otherwise the fuzzy hits of every name are gathered by id and
      their number decides. */
  method MatchRecommendation(lib: Library, title: String) returns (o: Outcome)
    ensures o == Matched(lib, title)
  {
    if title == [] {
      return Unchanged;
    }
    var names := ExtractSearchNames(lib.nfkc, title);
    o := SearchLibrary(lib, names);
  }

  /** The loop over the search names. */
  method SearchLibrary(lib: Library, names: seq<String>) returns (o: Outcome)
    ensures o == MatchNames(lib, names)
  {
    var all: seq<Series> := [];
    for i := 0 to |names|
      invariant all == Gathered(lib, names[..i])
      invariant Misses(lib, names[..i])
    {
      var exact := lib.byName(names[i]);
      if exact.Some? {
        ExactHit(lib, names, i);
        var s := Enrich(lib, exact.value);
        return InLibrary(s.id, DisplayName(s), s.cover);
      }
      GatheredSnoc(lib, names, i);
      MissesSnoc(lib, names, i);
      all := FuzzySearch(lib, all, names[i]);
    }
    assert names[..|names|] == names;
    NoHit(lib, names);
    o := Classify(lib, all);
  }

  lemma NoHit(lib: Library, names: seq<String>)
    requires Misses(lib, names)
    ensures MatchNames(lib, names) == Classify(lib, Gathered(lib, names[..|names|]))
  {
    assert names[..|names|] == names;
  }

  /** The LIKE search over the titles, then over the synonyms, each hit
      stored under its id. */
  method FuzzySearch(lib: Library, all: seq<Series>, name: String) returns (r: seq<Series>)
    requires DistinctIds(all)
    ensures r == PutAll(PutAll(all, lib.like(name)), lib.synonyms(name))
  {
    r := PutRows(all, lib.like(name));
    r := PutRows(r, lib.synonyms(name));
  }

  lemma ExactHit(lib: Library, names: seq<String>, i: nat)
    requires i < |names| && lib.byName(names[i]).Some?
    requires Misses(lib, names[..i])
    ensures var s := Enrich(lib, lib.byName(names[i]).value);
            MatchNames(lib, names) == InLibrary(s.id, DisplayName(s), s.cover)
  {
    FirstExactAt(lib, names, i);
  }

  lemma GatheredSnoc(lib: Library, names: seq<String>, i: nat)
    requires i < |names|
    ensures Gathered(lib, names[..i + 1]) == PutAll(PutAll(Gathered(lib, names[..i]), lib.like(names[i])), lib.synonyms(names[i]))
  {
    assert names[..i + 1][..i] == names[..i];
  }

  /** A recommendation without a title is returned as it came. */
  lemma UntitledUnchanged(lib: Library)
    ensures Matched(lib, []) == Unchanged
  {
  }

  /** An exact name hit on the title puts the recommendation in the
      library as that series, whatever the fuzzy searches would find. */
  lemma ExactTitleWins(lib: Library, title: String)
    requires title != [] && lib.byName(title).Some?
    ensures var s := Enrich(lib, lib.byName(title).value);
            Matched(lib, title) == InLibrary(s.id, DisplayName(s), s.cover)
  {
    var names := Dedupe(Candidates(lib.nfkc, title));
    SearchNamesFacts(lib.nfkc, title);
    FirstExactAt(lib, names, 0);
  }

  /** Without an exact hit the outcome is decided by the number of
      distinct series the fuzzy searches hit: none, one, or several, and
      then every one of them is offered. */
  lemma FuzzyClassification(lib: Library, names: seq<String>)
    requires forall j :: 0 <= j < |names| ==> lib.byName(names[j]).None?
    ensures var hits := HitIds(lib, names);
            (MatchNames(lib, names) == NotInLibrary <==> hits == {})
            && (MatchNames(lib, names).InLibrary? <==> |hits| == 1)
            && (MatchNames(lib, names).Multiple? <==> |hits| > 1)
            && (MatchNames(lib, names).Multiple? ==> (set c | c in MatchNames(lib, names).matches :: c.id) == hits)
  {
    var m := Gathered(lib, names);
    GatheredIds(lib, names);
    assert MatchNames(lib, names) == Classify(lib, m);
    if |m| > 1 {
      MultipleOffersAll(lib, m);
    }
  }

  /** Every gathered series is offered, and nothing else. */
  lemma MultipleOffersAll(lib: Library, m: seq<Series>)
    requires |m| > 1
    ensures (set c | c in Classify(lib, m).matches :: c.id) == Ids(m)
  {
    var cs := Classify(lib, m).matches;
    forall c | c in cs ensures c.id in Ids(m) {
      var i :| 0 <= i < |cs| && cs[i] == c;
      assert m[i] in m;
    }
    forall x | x in Ids(m) ensures exists c :: c in cs && c.id == x {
      var s :| s in m && s.id == x;
      var i :| 0 <= i < |m| && m[i] == s;
      assert cs[i].id == x;
    }
  }

  /** A titled recommendation none of whose search names is a series name
      is classified by its fuzzy hits. */
  lemma NoExactHit(lib: Library, title: String)
    requires title != []
    requires forall n :: n in Candidates(lib.nfkc, title) ==> lib.byName(n).None?
    ensures Matched(lib, title) == MatchNames(lib, Dedupe(Candidates(lib.nfkc, title)))
    ensures forall j :: 0 <= j < |Dedupe(Candidates(lib.nfkc, title))| ==> lib.byName(Dedupe(Candidates(lib.nfkc, title))[j]).None?
  {
    var names := Dedupe(Candidates(lib.nfkc, title));
    SearchNamesFacts(lib.nfkc, title);
    forall j | 0 <= j < |names| ensures lib.byName(names[j]).None? {
      assert names[j] in names;
    }
  }
}
