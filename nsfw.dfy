/** The NSFW classifier of `db/nsfw.py`: the three configuration lists, the
    shell-style tag patterns (`fnmatch`, after section 2.13 of the POSIX.1-2017
    Shell and Utilities volume), the rule cascade that decides one series, and
    the bulk recompute of the `is_nsfw` column. */
module Nsfw {
  import opened Text
  import opened Wrappers
  import opened Json
  import opened Collections
  import opened TagTaxonomy

  // ---------------------------------------------------------------------------
  // Configuration lists
  // ---------------------------------------------------------------------------

  /** A setting as `get_setting` returns it: absent, or its text together with
      what `json.loads` makes of that text (None when it raises). */
  datatype RawSetting = Missing | Stored(text: String, decoded: Option<Json>)

  /** `str(item)` for a decoded JSON item. */
  function PyStr(j: Json): String {
    match j
    case JNull => "None"
    case JBool(b) => if b then "True" else "False"
    case JInt(i) => IntText(i)
    case JStr(s) => s
    case _ => Dumps(j, false)
  }

  /** `str(item).strip()`. */
  function ItemText(j: Json): (r: String)
    ensures IsStripped(r)
  {
    Strip(PyStr(j))
  }

  /** The items `parse_list` keeps from a JSON list: `str(item).strip()`, blanks dropped. */
  function KeptItems(items: seq<Json>): (r: seq<String>)
    ensures forall k :: 0 <= k < |r| ==> r[k] != [] && IsStripped(r[k])
    decreases |items|
  {
    if items == [] then []
    else
      var init := KeptItems(items[..|items| - 1]);
      var s := ItemText(items[|items| - 1]);
      if s != [] then KeptSnoc(init, s); init + [s] else init
  }

  lemma KeptSnoc(init: seq<String>, s: String)
    requires forall k :: 0 <= k < |init| ==> init[k] != [] && IsStripped(init[k])
    requires s != [] && IsStripped(s)
    ensures forall k :: 0 <= k < |init + [s]| ==> (init + [s])[k] != [] && IsStripped((init + [s])[k])
  {
    var r := init + [s];
    forall k | 0 <= k < |r| ensures r[k] != [] && IsStripped(r[k]) {
      if k < |init| { assert r[k] == init[k]; } else { assert r[k] == s; }
    }
  }

  /** `value.split(',')`: the pieces between commas, one more than there are commas. */
  function SplitComma(s: String): (r: seq<String>)
    ensures |r| >= 1
    decreases |s|
  {
    if s == [] then [[]]
    else
      var rest := SplitComma(s[1..]);
      if s[0] == ',' then [[]] + rest else [[s[0]] + rest[0]] + rest[1..]
  }

  /** `[item.strip() for item in parts if item.strip()]`. */
  function StrippedNonBlank(parts: seq<String>): (r: seq<String>)
    ensures forall k :: 0 <= k < |r| ==> r[k] != [] && IsStripped(r[k])
    decreases |parts|
  {
    if parts == [] then []
    else
      var s := Strip(parts[|parts| - 1]);
      StrippedNonBlank(parts[..|parts| - 1]) + (if s != [] then [s] else [])
  }

  /** What `parse_list(value, default)` returns. */
  function ParsedList(value: RawSetting, default: seq<String>): seq<String> {
    match value
    case Missing => default
    case Stored(text, decoded) =>
      if decoded.Some? && decoded.value.JArr? then KeptItems(decoded.value.items)
      else
        var items := StrippedNonBlank(SplitComma(text));
        if items != [] then items else default
  }

  /** The JSON-list loop of `parse_list`. */
  method KeepItems(items: seq<Json>) returns (kept: seq<String>)
    ensures kept == KeptItems(items)
  {
    kept := [];
    var i := 0;
    while i < |items|
      invariant i <= |items|
      invariant kept == KeptItems(items[..i])
    {
      assert items[..i + 1][..i] == items[..i];
      var s := Strip(PyStr(items[i]));
      if s != [] {
        kept := kept + [s];
      }
      i := i + 1;
    }
    assert items[..i] == items;
  }

  /** `parse_list`. */
  method ParseList(value: RawSetting, default: seq<String>) returns (items: seq<String>)
    ensures items == ParsedList(value, default)
  {
    if value.Missing? {
      return default;
    }
    if value.decoded.Some? && value.decoded.value.JArr? {
      items := KeepItems(value.decoded.value.items);
      return;
    }
    items := StrippedNonBlank(SplitComma(value.text));
    if items == [] {
      items := default;
    }
  }

  /** Every parsed item is stripped and non-blank, or comes from the default. */
  lemma ParsedItemsClean(value: RawSetting, default: seq<String>, x: String)
    requires x in ParsedList(value, default)
    ensures (x != [] && IsStripped(x)) || x in default
  {
  }

  /** A stored empty JSON list stays empty: the default is not used. */
  lemma EmptyJsonListStaysEmpty(text: String, default: seq<String>)
    ensures ParsedList(Stored(text, Some(JArr([]))), default) == []
  {
  }

  /** Text with nothing but commas and blanks falls back to the default. */
  lemma BlankTextGivesDefault(text: String, decoded: Option<Json>, default: seq<String>)
    requires !(decoded.Some? && decoded.value.JArr?)
    requires forall k :: 0 <= k < |text| ==> text[k] == ',' || IsSpace(text[k])
    ensures ParsedList(Stored(text, decoded), default) == default
  {
    BlankPieces(text);
    NoKeptPieces(SplitComma(text));
  }

  lemma {:induction false} BlankPieces(text: String)
    requires forall k :: 0 <= k < |text| ==> text[k] == ',' || IsSpace(text[k])
    ensures forall p :: p in SplitComma(text) ==> forall k :: 0 <= k < |p| ==> IsSpace(p[k])
    decreases |text|
  {
    if text != [] {
      BlankPieces(text[1..]);
      var rest := SplitComma(text[1..]);
      if text[0] != ',' {
        assert rest[0] in rest;
        var p := [text[0]] + rest[0];
        assert forall k :: 1 <= k < |p| ==> p[k] == rest[0][k - 1];
      }
    }
  }

  lemma {:induction false} NoKeptPieces(parts: seq<String>)
    requires forall p :: p in parts ==> forall k :: 0 <= k < |p| ==> IsSpace(p[k])
    ensures StrippedNonBlank(parts) == []
    decreases |parts|
  {
    if parts != [] {
      var init, last := parts[..|parts| - 1], parts[|parts| - 1];
      assert forall p :: p in init ==> p in parts;
      NoKeptPieces(init);
      assert last in parts;
      assert StripLeft(last) == [];
    }
  }

  lemma {:induction false} SplitNoComma(s: String)
    requires ',' !in s
    ensures SplitComma(s) == [s]
    decreases |s|
  {
    if s != [] {
      assert ',' !in s[1..] by {
        assert forall k :: 0 <= k < |s| - 1 ==> s[1..][k] == s[k + 1];
      }
      SplitNoComma(s[1..]);
      assert [s[0]] + s[1..] == s;
    }
  }

  lemma {:induction false} SplitAfterPiece(a: String, rest: String)
    requires ',' !in a
    ensures SplitComma(a + "," + rest) == [a] + SplitComma(rest)
    decreases |a|
  {
    if a == [] {
      assert a + "," + rest == [','] + rest;
      assert (a + "," + rest)[1..] == rest;
    } else {
      assert ',' !in a[1..] by {
        assert forall k :: 0 <= k < |a| - 1 ==> a[1..][k] == a[k + 1];
      }
      SplitAfterPiece(a[1..], rest);
      assert (a + "," + rest)[1..] == a[1..] + "," + rest;
      assert [a[0]] + a[1..] == a;
    }
  }

  /** Splitting a comma-joined list gives back its items. */
  lemma {:induction false} SplitJoin(xs: seq<String>)
    requires xs != [] && forall x :: x in xs ==> ',' !in x
    ensures SplitComma(Join(",", xs)) == xs
    decreases |xs|
  {
    if |xs| == 1 {
      SplitNoComma(xs[0]);
    } else {
      assert xs[0] in xs;
      assert forall x :: x in xs[1..] ==> x in xs;
      SplitJoin(xs[1..]);
      SplitAfterPiece(xs[0], Join(",", xs[1..]));
      assert [xs[0]] + xs[1..] == xs;
    }
  }

  lemma {:induction false} CleanPiecesKept(parts: seq<String>)
    requires forall k :: 0 <= k < |parts| ==> parts[k] != [] && IsStripped(parts[k])
    ensures StrippedNonBlank(parts) == parts
    decreases |parts|
  {
    if parts != [] {
      var init, last := parts[..|parts| - 1], parts[|parts| - 1];
      CleanPiecesKept(init);
      StripOfStripped(last);
      assert init + [last] == parts;
    }
  }

  /** A setting written as `a,b,c` with clean items reads back as those items. */
  lemma CommaListRoundTrip(xs: seq<String>, decoded: Option<Json>, default: seq<String>)
    requires xs != [] && forall x :: x in xs ==> x != [] && IsStripped(x) && ',' !in x
    requires !(decoded.Some? && decoded.value.JArr?)
    ensures ParsedList(Stored(Join(",", xs), decoded), default) == xs
  {
    SplitJoin(xs);
    assert forall k :: 0 <= k < |xs| ==> xs[k] in xs;
    CleanPiecesKept(xs);
  }

  /** The JSON list of the strings `xs`. */
  function JsonStrings(xs: seq<String>): (js: seq<Json>)
    ensures |js| == |xs|
    decreases |xs|
  {
    if xs == [] then [] else JsonStrings(xs[..|xs| - 1]) + [JStr(xs[|xs| - 1])]
  }

  /** A setting stored as a JSON list of clean strings reads back as that list. */
  lemma {:induction false} JsonListRoundTrip(xs: seq<String>)
    requires forall k :: 0 <= k < |xs| ==> xs[k] != [] && IsStripped(xs[k])
    ensures KeptItems(JsonStrings(xs)) == xs
    decreases |xs|
  {
    if xs != [] {
      var init, last := xs[..|xs| - 1], xs[|xs| - 1];
      assert xs == init + [last];
      assert forall k :: 0 <= k < |init| ==> init[k] == xs[k];
      JsonListRoundTrip(init);
      var js := JsonStrings(xs);
      assert js == JsonStrings(init) + [JStr(last)];
      assert js[..|js| - 1] == JsonStrings(init);
      assert ItemText(JStr(last)) == last by {
        assert PyStr(JStr(last)) == last;
        StripOfStripped(last);
      }
      assert KeptItems(js) == KeptItems(JsonStrings(init)) + [last];
    }
  }

  /** `get_default_nsfw_tag_patterns()`. */
  const DefaultTagPatterns: seq<String> := [
    "adultery", "*breast*", "futanari", "lactation", "pet play", "scissoring", "voyeur",
    "sexual*", "sexless", "yaoi", "yuri", "vore", "armpits", "hypersexuality", "human pet",
    "*chest", "ero guro", "eroge", "rimjob", "deepthroat", "masochism", "facial", "anal*",
    "oral*", "boob*", "group sex", "cheating", "threesome", "smut", "* sex", "sex *",
    "* sex *", "prostitution", "whore", "incest", "fetish", "defloration", "femboy",
    "virginity", "omegaverse", "torture", "masturb*", "handjob", "cunnilingus", "femdom",
    "MILF", "fellatio", "* breasts", "rape", "slavery", "ecchi", "erotica"]

  /** The three lists `get_nsfw_config` returns. */
  datatype NsfwConfig = NsfwConfig(categories: seq<String>, subcategories: seq<String>, tagPatterns: seq<String>)

  /** `get_nsfw_config`, given the three stored settings. */
  method GetNsfwConfig(categories: RawSetting, subcategories: RawSetting, tagPatterns: RawSetting)
    returns (cfg: NsfwConfig)
    ensures cfg == NsfwConfig(ParsedList(categories, []), ParsedList(subcategories, []),
                              ParsedList(tagPatterns, DefaultTagPatterns))
  {
    var cs := ParseList(categories, []);
    var ss := ParseList(subcategories, []);
    var ps := ParseList(tagPatterns, DefaultTagPatterns);
    cfg := NsfwConfig(cs, ss, ps);
  }

  /** With nothing stored, no category or subcategory is flagged and the
      default patterns apply. */
  lemma UnsetConfig()
    ensures NsfwConfig(ParsedList(Missing, []), ParsedList(Missing, []), ParsedList(Missing, DefaultTagPatterns))
            == NsfwConfig([], [], DefaultTagPatterns)
  {
  }

  // ---------------------------------------------------------------------------
  // Shell-style patterns (`fnmatch`)
  // ---------------------------------------------------------------------------

  /** One item of a bracket expression: a character, or a range `lo-hi`. */
  datatype ClassItem = Single(c: char) | Span(lo: char, hi: char)

  /** One element of a translated pattern: `*`, `?`, a bracket expression
      (negated by a leading `!`), or a character that stands for itself. */
  datatype GlobToken = AnyString | AnyChar | Bracket(negated: bool, items: seq<ClassItem>) | Literal(c: char)

  predicate ItemHolds(it: ClassItem, c: char) {
    match it
    case Single(x) => c == x
    case Span(lo, hi) => lo <= c <= hi
  }

  predicate InClass(c: char, items: seq<ClassItem>) {
    exists k :: 0 <= k < |items| && ItemHolds(items[k], c)
  }

  /** The items between the brackets: `x-y` is a range (empty when `x > y`),
      any other character stands for itself. */
  function ClassItems(s: String): seq<ClassItem>
    decreases |s|
  {
    if s == [] then []
    else if |s| >= 3 && s[1] == '-' then [Span(s[0], s[2])] + ClassItems(s[3..])
    else [Single(s[0])] + ClassItems(s[1..])
  }

  /** The first `]` at or after `j`, or the end of the pattern. */
  function ScanClose(pat: String, j: nat): (r: nat)
    requires j <= |pat|
    ensures j <= r <= |pat| && (r < |pat| ==> pat[r] == ']')
    decreases |pat| - j
  {
    if j == |pat| || pat[j] == ']' then j else ScanClose(pat, j + 1)
  }

  /** Where the bracket expression opened by `pat[0] == '['` closes: a `!` and
      then a `]` right after the opening bracket belong to the expression. */
  function BracketEnd(pat: String): (r: nat)
    requires |pat| >= 1
    ensures 1 <= r <= |pat|
  {
    var j1 := if 1 < |pat| && pat[1] == '!' then 2 else 1;
    var j2 := if j1 < |pat| && pat[j1] == ']' then j1 + 1 else j1;
    ScanClose(pat, j2)
  }

  function ClassToken(stuff: String): GlobToken {
    if stuff != [] && stuff[0] == '!' then Bracket(true, ClassItems(stuff[1..]))
    else Bracket(false, ClassItems(stuff))
  }

  /** `fnmatch.translate`: an unclosed `[` stands for itself. Every token
      takes at least one character of the pattern, so only the empty pattern
      gives no token; TranslatePlain and TranslateStar give the tokens of plain
      text and of `*`. */
  function Translate(pat: String): (r: seq<GlobToken>)
    ensures |r| <= |pat|
    ensures r == [] <==> pat == []
    decreases |pat|
  {
    if pat == [] then []
    else if pat[0] == '*' then [AnyString] + Translate(pat[1..])
    else if pat[0] == '?' then [AnyChar] + Translate(pat[1..])
    else if pat[0] == '[' then
      var j := BracketEnd(pat);
      if j == |pat| then [Literal('[')] + Translate(pat[1..])
      else [ClassToken(pat[1..j])] + Translate(pat[j + 1..])
    else [Literal(pat[0])] + Translate(pat[1..])
  }

  /** The whole of `s` matches the tokens `p` (the translated regular
      expression is anchored at both ends and `.` matches every character). */
  predicate Matches(s: String, p: seq<GlobToken>)
    decreases |p|, |s|
  {
    if p == [] then s == []
    else
      match p[0]
      case AnyString => Matches(s, p[1..]) || (s != [] && Matches(s[1..], p))
      case AnyChar => s != [] && Matches(s[1..], p[1..])
      case Bracket(neg, items) => s != [] && InClass(s[0], items) != neg && Matches(s[1..], p[1..])
      case Literal(c) => s != [] && s[0] == c && Matches(s[1..], p[1..])
  }

  /** `fnmatch(name, pat)` on POSIX, where `os.path.normcase` changes nothing. */
  predicate FnMatch(name: String, pat: String) {
    Matches(name, Translate(pat))
  }

  /** A pattern without `*`, `?` or `[`. */
  predicate Plain(w: String) {
    forall k :: 0 <= k < |w| ==> w[k] != '*' && w[k] != '?' && w[k] != '['
  }

  function Lits(w: String): (p: seq<GlobToken>)
    ensures |p| == |w|
    decreases |w|
  {
    if w == [] then [] else [Literal(w[0])] + Lits(w[1..])
  }

  lemma {:induction false} TranslatePlain(w: String, rest: String)
    requires Plain(w)
    ensures Translate(w + rest) == Lits(w) + Translate(rest)
    decreases |w|
  {
    if w == [] {
      assert w + rest == rest;
    } else {
      assert (w + rest)[0] == w[0] && (w + rest)[1..] == w[1..] + rest;
      TranslatePlain(w[1..], rest);
    }
  }

  lemma TranslateStar(rest: String)
    ensures Translate("*" + rest) == [AnyString] + Translate(rest)
  {
    assert ("*" + rest)[1..] == rest;
  }

  lemma {:induction false} MatchLits(s: String, w: String, p: seq<GlobToken>)
    ensures Matches(s, Lits(w) + p) <==> StartsWith(s, w) && Matches(s[|w|..], p)
    decreases |w|
  {
    if w == [] {
      assert Lits(w) + p == p;
    } else {
      var q := Lits(w) + p;
      assert q[0] == Literal(w[0]) && q[1..] == Lits(w[1..]) + p;
      assert Matches(s, q) <==> s != [] && s[0] == w[0] && Matches(s[1..], q[1..]);
      if s != [] {
        MatchLits(s[1..], w[1..], p);
        if |w| <= |s| {
          assert s[1..][|w| - 1..] == s[|w|..];
          assert StartsWith(s, w) <==> s[0] == w[0] && StartsWith(s[1..], w[1..]) by {
            var a := s[..|w|];
            assert a[1..] == s[1..][..|w| - 1];
            assert a == [a[0]] + a[1..];
            assert w == [w[0]] + w[1..];
          }
        }
      }
    }
  }

  lemma {:induction false} MatchStar(s: String, p: seq<GlobToken>)
    ensures Matches(s, [AnyString] + p) <==> exists i :: 0 <= i <= |s| && Matches(s[i..], p)
    decreases |s|
  {
    var q := [AnyString] + p;
    assert q[0] == AnyString && q[1..] == p;
    if Matches(s, p) {
      assert s[0..] == s;
    }
    if s != [] {
      MatchStar(s[1..], p);
      forall i | 1 <= i <= |s| ensures s[1..][i - 1..] == s[i..] {
      }
      if exists i :: 0 <= i <= |s| && Matches(s[i..], p) {
        var i :| 0 <= i <= |s| && Matches(s[i..], p);
        if i == 0 {
          assert s[0..] == s;
        } else {
          assert Matches(s[1..][i - 1..], p);
        }
      }
    } else {
      if exists i :: 0 <= i <= |s| && Matches(s[i..], p) {
        var i :| 0 <= i <= |s| && Matches(s[i..], p);
        assert s[i..] == s;
      }
    }
  }

  /** `*` alone matches every string. */
  lemma StarMatchesAll(s: String)
    ensures FnMatch(s, "*")
  {
    TranslateStar([]);
    assert "*" + [] == "*";
    MatchStar(s, []);
    assert Matches(s[|s|..], []);
  }

  /** A pattern without special characters matches only itself. */
  lemma PlainPatternIsEquality(s: String, w: String)
    requires Plain(w)
    ensures FnMatch(s, w) <==> s == w
  {
    TranslatePlain(w, []);
    assert w + [] == w;
    assert Lits(w) + [] == Lits(w);
    MatchLits(s, w, []);
  }

  /** `w*` matches the strings that start with `w`. */
  lemma PrefixPattern(s: String, w: String)
    requires Plain(w)
    ensures FnMatch(s, w + "*") <==> StartsWith(s, w)
  {
    TranslatePlain(w, "*");
    TranslateStar([]);
    assert "*" + [] == "*";
    MatchLits(s, w, [AnyString]);
    if |w| <= |s| {
      StarMatchesAll(s[|w|..]);
      assert [AnyString] + [] == [AnyString];
    }
  }

  /** `*w` matches the strings that end with `w`. */
  lemma SuffixPattern(s: String, w: String)
    requires Plain(w)
    ensures FnMatch(s, "*" + w) <==> EndsWith(s, w)
  {
    TranslateStar(w);
    TranslatePlain(w, []);
    assert w + [] == w && Lits(w) + [] == Lits(w);
    MatchStar(s, Lits(w));
    forall i | 0 <= i <= |s|
      ensures Matches(s[i..], Lits(w)) <==> s[i..] == w
    {
      MatchLits(s[i..], w, []);
      assert Lits(w) + [] == Lits(w);
    }
    if EndsWith(s, w) {
      assert s[|s| - |w|..] == w;
    }
  }

  /** `*w*` matches the strings that contain `w`. */
  lemma InfixPattern(s: String, w: String)
    requires Plain(w)
    ensures FnMatch(s, "*" + w + "*") <==> Contains(s, w)
  {
    assert "*" + w + "*" == "*" + (w + "*");
    TranslateStar(w + "*");
    TranslatePlain(w, "*");
    TranslateStar([]);
    assert "*" + [] == "*";
    assert Translate("*" + w + "*") == [AnyString] + (Lits(w) + [AnyString]);
    MatchStar(s, Lits(w) + [AnyString]);
    forall i | 0 <= i <= |s|
      ensures Matches(s[i..], Lits(w) + [AnyString]) <==> OccursAt(s, w, i)
    {
      MatchLits(s[i..], w, [AnyString]);
      if |w| <= |s[i..]| {
        StarMatchesAll(s[i..][|w|..]);
        assert [AnyString] + [] == [AnyString];
        assert s[i..][..|w|] == s[i..i + |w|];
      }
    }
  }

  /** `*breast*` flags "large breasts", as in the test suite. */
  lemma InfixExample()
    ensures FnMatch("large breasts", "*breast*")
  {
    var w := "breast";
    assert Plain(w);
    assert "*breast*" == "*" + w + "*";
    InfixPattern("large breasts", w);
    assert OccursAt("large breasts", w, 6);
  }

  /** `sexual*` flags "sexuality", as in the test suite. */
  lemma PrefixExample()
    ensures FnMatch("sexuality", "sexual*")
  {
    var w := "sexual";
    assert Plain(w);
    assert "sexual*" == w + "*";
    PrefixPattern("sexuality", w);
    assert "sexuality"[..|w|] == w;
  }

  /** A plain pattern such as `ecchi` flags only the equal tag. */
  lemma ExactExample()
    ensures FnMatch("ecchi", "ecchi")
    ensures !FnMatch("romance", "ecchi")
  {
    assert Plain("ecchi");
    PlainPatternIsEquality("ecchi", "ecchi");
    PlainPatternIsEquality("romance", "ecchi");
  }

  // ---------------------------------------------------------------------------
  // The rule cascade
  // ---------------------------------------------------------------------------

  /** `[normalize_tag(t) for t in tags]` without the empty results. */
  function NormalizedTags(tags: seq<String>): (r: seq<String>)
    ensures forall x :: x in r <==> x != [] && exists t :: t in tags && NormalizeTag(t) == x
    decreases |tags|
  {
    if tags == [] then []
    else
      var init, last := tags[..|tags| - 1], tags[|tags| - 1];
      assert tags == init + [last];
      var n := NormalizeTag(last);
      NormalizedTags(init) + (if n != [] then [n] else [])
  }

  /** `[str(p).strip().lower() for p in patterns if str(p).strip()]`. */
  function NormalizedPatterns(patterns: seq<String>): (r: seq<String>)
    ensures forall x :: x in r <==> exists p :: p in patterns && Strip(p) != [] && LowerStr(Strip(p)) == x
    decreases |patterns|
  {
    if patterns == [] then []
    else
      var init, last := patterns[..|patterns| - 1], patterns[|patterns| - 1];
      assert patterns == init + [last];
      var s := Strip(last);
      NormalizedPatterns(init) + (if s != [] then [LowerStr(s)] else [])
  }

  /** `matches_nsfw_tag_pattern`. */
  predicate MatchesTagPattern(tags: seq<String>, patterns: seq<String>) {
    if tags == [] || patterns == [] then false
    else
      var nt := NormalizedTags(tags);
      if nt == [] then false
      else exists t, p :: t in nt && p in NormalizedPatterns(patterns) && FnMatch(t, p)
  }

  /** A tag list matches iff some tag with a non-empty normal form matches, as
      a whole, some non-blank pattern taken stripped and in lower case. */
  lemma MatchesTagPatternIff(tags: seq<String>, patterns: seq<String>)
    ensures MatchesTagPattern(tags, patterns) <==>
              exists t, p :: t in tags && p in patterns && NormalizeTag(t) != [] && Strip(p) != []
                             && FnMatch(NormalizeTag(t), LowerStr(Strip(p)))
  {
    if MatchesTagPattern(tags, patterns) {
      var nt, np := NormalizedTags(tags), NormalizedPatterns(patterns);
      var n, q :| n in nt && q in np && FnMatch(n, q);
      var t :| t in tags && NormalizeTag(t) == n;
      var p :| p in patterns && Strip(p) != [] && LowerStr(Strip(p)) == q;
      assert t in tags && p in patterns && NormalizeTag(t) != [] && Strip(p) != [];
    }
    if exists t, p :: t in tags && p in patterns && NormalizeTag(t) != [] && Strip(p) != []
                      && FnMatch(NormalizeTag(t), LowerStr(Strip(p))) {
      var t, p :| t in tags && p in patterns && NormalizeTag(t) != [] && Strip(p) != []
                  && FnMatch(NormalizeTag(t), LowerStr(Strip(p)));
      var nt, np := NormalizedTags(tags), NormalizedPatterns(patterns);
      assert NormalizeTag(t) in nt;
      assert LowerStr(Strip(p)) in np;
      assert nt != [];
    }
  }

  /** Matching reads a tag only through its normal form. */
  lemma MatchIgnoresSpellingOfTags(tags: seq<String>, patterns: seq<String>)
    ensures MatchesTagPattern(tags, patterns) <==> MatchesTagPattern(MapSeq(NormalizeTag, tags), patterns)
  {
    var ns := MapSeq(NormalizeTag, tags);
    MapSeqLength(NormalizeTag, tags);
    MatchesTagPatternIff(tags, patterns);
    MatchesTagPatternIff(ns, patterns);
    forall t | t in tags ensures NormalizeTag(t) in ns && NormalizeTag(NormalizeTag(t)) == NormalizeTag(t) {
      var k :| 0 <= k < |tags| && tags[k] == t;
      MapSeqAt(NormalizeTag, tags, k);
      NormalizeTagIdempotent(t);
    }
    forall n | n in ns ensures exists t :: t in tags && NormalizeTag(t) == n && NormalizeTag(n) == n {
      var k :| 0 <= k < |ns| && ns[k] == n;
      MapSeqAt(NormalizeTag, tags, k);
      NormalizeTagIdempotent(tags[k]);
    }
  }

  /** More patterns never unflag a tag list. */
  lemma MatchesMonotone(tags: seq<String>, patterns: seq<String>, more: seq<String>)
    requires forall p :: p in patterns ==> p in more
    requires MatchesTagPattern(tags, patterns)
    ensures MatchesTagPattern(tags, more)
  {
    MatchesTagPatternIff(tags, patterns);
    MatchesTagPatternIff(tags, more);
  }

  /** The columns of one `series` row that the classifier reads; the list
      columns are the stored text `extract_tags` parses. */
  datatype NsfwRow = NsfwRow(
    id: Option<nat>,
    isAdult: Option<int>,
    category: Option<String>,
    subcategory: Option<String>,
    genres: Option<String>,
    tags: Option<String>,
    demographics: Option<String>,
    nsfwOverride: Option<int>)

  /** `str(value).strip().lower()`, or "" for NULL. */
  function FieldText(v: Option<String>): String {
    if v.Some? then LowerStr(Strip(v.value)) else []
  }

  /** Some non-blank entry occurs in the category (a substring test). */
  predicate CategoryHit(category: String, entries: seq<String>) {
    category != [] && exists e :: e in entries && LowerStr(Strip(e)) != [] && Contains(category, LowerStr(Strip(e)))
  }

  /** Some non-blank entry equals the subcategory. */
  predicate SubcategoryHit(subcategory: String, entries: seq<String>) {
    subcategory != [] && exists e :: e in entries && LowerStr(Strip(e)) != [] && LowerStr(Strip(e)) == subcategory
  }

  /** `tag_sources`: the tags of genres, tags and demographics, in that order. */
  function TagSources(r: NsfwRow, extract: Option<String> -> seq<String>): seq<String> {
    extract(r.genres) + extract(r.tags) + extract(r.demographics)
  }

  /** `determine_series_nsfw`; `extract` is `extract_tags`. */
  predicate DetermineSeriesNsfw(row: Option<NsfwRow>, cfg: NsfwConfig, extract: Option<String> -> seq<String>) {
    if row.None? || row.value.id.None? then false
    else
      var r := row.value;
      if r.isAdult.Some? && r.isAdult.value != 0 then true
      else if CategoryHit(FieldText(r.category), cfg.categories) then true
      else if SubcategoryHit(FieldText(r.subcategory), cfg.subcategories) then true
      else MatchesTagPattern(TagSources(r, extract), cfg.tagPatterns)
  }

  /** A missing row or a row without an id is never NSFW; otherwise a truthy
      `is_adult` makes it NSFW whatever the configuration. */
  lemma CascadeEnds(row: Option<NsfwRow>, cfg: NsfwConfig, extract: Option<String> -> seq<String>)
    ensures row.None? || row.value.id.None? ==> !DetermineSeriesNsfw(row, cfg, extract)
    ensures row.Some? && row.value.id.Some? && row.value.isAdult.Some? && row.value.isAdult.value != 0
            ==> DetermineSeriesNsfw(row, cfg, extract)
  {
  }

  /** Every list of `small` is contained in the same list of `big`. */
  predicate ConfigWithin(small: NsfwConfig, big: NsfwConfig) {
    (forall e :: e in small.categories ==> e in big.categories)
    && (forall e :: e in small.subcategories ==> e in big.subcategories)
    && (forall e :: e in small.tagPatterns ==> e in big.tagPatterns)
  }

  /** Widening the configuration never unflags a series. */
  lemma DetermineMonotone(row: Option<NsfwRow>, small: NsfwConfig, big: NsfwConfig, extract: Option<String> -> seq<String>)
    requires ConfigWithin(small, big)
    requires DetermineSeriesNsfw(row, small, extract)
    ensures DetermineSeriesNsfw(row, big, extract)
  {
    var r := row.value;
    if !(r.isAdult.Some? && r.isAdult.value != 0)
       && !CategoryHit(FieldText(r.category), small.categories)
       && !SubcategoryHit(FieldText(r.subcategory), small.subcategories) {
      MatchesMonotone(TagSources(r, extract), small.tagPatterns, big.tagPatterns);
    }
  }

  /** With every list empty only the adult flag counts. */
  lemma EmptyConfigOnlyAdult(r: NsfwRow, extract: Option<String> -> seq<String>)
    requires r.id.Some?
    ensures DetermineSeriesNsfw(Some(r), NsfwConfig([], [], []), extract) <==> r.isAdult.Some? && r.isAdult.value != 0
  {
  }

  /** The entry of the test suite is already normalised. */
  lemma HentaiEntry()
    ensures LowerStr(Strip("hentai")) == "hentai"
  {
    StripOfStripped("hentai");
    LowerStrOfLowered("hentai");
  }

  /** "Hentai" in lower case. */
  lemma HentaiLowered()
    ensures LowerStr("Hentai") == "hentai"
  {
    var c := LowerStr("Hentai");
    assert c[0] == 'h' && c[1] == 'e' && c[2] == 'n' && c[3] == 't' && c[4] == 'a' && c[5] == 'i';
  }

  /** The category of the test suite, normalised. */
  lemma HentaiTexts()
    ensures |FieldText(Some("Hentai & Adults"))| == 15
    ensures FieldText(Some("Hentai & Adults"))[..6] == "hentai"
  {
    var x := "Hentai & Adults";
    StripOfStripped(x);
    assert x[..6] == "Hentai";
    LowerStrSlice(x, 6);
    HentaiLowered();
  }

  /** The category test is a case-insensitive substring test: the entry
      "hentai" hits the category "Hentai & Adults". */
  lemma CategoryExample()
    ensures CategoryHit(FieldText(Some("Hentai & Adults")), ["hentai"])
  {
    HentaiTexts();
    HentaiEntry();
    var c := FieldText(Some("Hentai & Adults"));
    assert OccursAt(c, "hentai", 0);
    assert "hentai" in ["hentai"];
  }

  /** The subcategory test is an equality: the same entry does not hit the
      subcategory "Hentai & Adults". */
  lemma SubcategoryExample()
    ensures !SubcategoryHit(FieldText(Some("Hentai & Adults")), ["hentai"])
  {
    HentaiTexts();
    HentaiEntry();
  }

  // ---------------------------------------------------------------------------
  // Recomputing the stored flags
  // ---------------------------------------------------------------------------

  /** The flag `recompute_nsfw_flags` stores for one series: the manual
      override when there is one, else 1 or 0 by the rule cascade. */
  function FlagOf(r: NsfwRow, cfg: NsfwConfig, extract: Option<String> -> seq<String>): int {
    if r.nsfwOverride.Some? then r.nsfwOverride.value
    else if DetermineSeriesNsfw(Some(r), cfg, extract) then 1 else 0
  }

  /** A manual override decides the flag whatever the configuration. */
  lemma OverrideWins(r: NsfwRow, cfg: NsfwConfig, other: NsfwConfig, extract: Option<String> -> seq<String>)
    requires r.nsfwOverride.Some?
    ensures FlagOf(r, cfg, extract) == r.nsfwOverride.value == FlagOf(r, other, extract)
  {
  }

  /** Without an override the stored flag is 1 exactly for the series the
      cascade classifies as NSFW, 0 otherwise. */
  lemma FlagFollowsCascade(r: NsfwRow, cfg: NsfwConfig, extract: Option<String> -> seq<String>)
    requires r.nsfwOverride.None?
    ensures FlagOf(r, cfg, extract) in {0, 1}
    ensures FlagOf(r, cfg, extract) == 1 <==> DetermineSeriesNsfw(Some(r), cfg, extract)
  {
  }

  /** One `(is_nsfw, id)` pair of the `executemany` batch. */
  datatype FlagUpdate = FlagUpdate(flag: int, id: nat)

  /** The series among `ids` whose flag in `flags` is non-zero. */
  ghost function Flagged(flags: map<nat, int>, ids: set<nat>): set<nat> {
    set id | id in ids && id in flags && flags[id] != 0
  }

  /** No series is updated twice in one batch. */
  predicate DistinctIds(us: seq<FlagUpdate>) {
    forall i, j :: 0 <= i < j < |us| ==> us[i].id != us[j].id
  }

  /** `UPDATE series SET is_nsfw = ? WHERE id = ?` run for each pair in turn;
      an id without a row changes nothing. */
  function Written(m: map<nat, int>, us: seq<FlagUpdate>): map<nat, int>
    decreases |us|
  {
    if us == [] then m
    else
      var init, u := us[..|us| - 1], us[|us| - 1];
      var w := Written(m, init);
      if u.id in w then w[u.id := u.flag] else w
  }

  /** The flag of the last pair for `id`, if any. */
  function LastFlag(us: seq<FlagUpdate>, id: nat): Option<int>
    decreases |us|
  {
    if us == [] then None
    else if us[|us| - 1].id == id then Some(us[|us| - 1].flag)
    else LastFlag(us[..|us| - 1], id)
  }

  /** A batch leaves the set of rows alone and gives each row the flag of its
      last pair, or keeps its flag when it has none. */
  lemma {:induction false} WrittenIsLastWrite(m: map<nat, int>, us: seq<FlagUpdate>)
    ensures Written(m, us).Keys == m.Keys
    ensures forall id :: id in m ==> Written(m, us)[id] == LastFlag(us, id).GetOr(m[id])
    decreases |us|
  {
    if us != [] {
      WrittenIsLastWrite(m, us[..|us| - 1]);
    }
  }

  /** Running the same batch twice leaves what running it once leaves. */
  lemma WrittenTwice(m: map<nat, int>, us: seq<FlagUpdate>)
    ensures Written(Written(m, us), us) == Written(m, us)
  {
    var w := Written(m, us);
    WrittenIsLastWrite(m, us);
    WrittenIsLastWrite(w, us);
  }

  /** With distinct ids, the last pair for an id is its only pair. */
  lemma {:induction false} LastFlagDistinct(us: seq<FlagUpdate>, k: nat)
    requires DistinctIds(us) && k < |us|
    ensures LastFlag(us, us[k].id) == Some(us[k].flag)
    decreases |us|
  {
    if k < |us| - 1 {
      assert us[|us| - 1].id != us[k].id;
      var init := us[..|us| - 1];
      assert init[k] == us[k];
      LastFlagDistinct(init, k);
    }
  }

  /** The flags the configuration gives every series of `rows`. */
  function Flags(rows: map<nat, NsfwRow>, cfg: NsfwConfig, extract: Option<String> -> seq<String>): (r: map<nat, int>)
    ensures r.Keys == rows.Keys
  {
    map id | id in rows :: FlagOf(rows[id], cfg, extract)
  }

  /** The loop of `recompute_nsfw_flags` over the selected rows: one pair per
      series, carrying its flag, and the number of non-zero flags. */
  method CollectUpdates(rows: map<nat, NsfwRow>, cfg: NsfwConfig, extract: Option<String> -> seq<String>)
    returns (updates: seq<FlagUpdate>, flagged: nat)
    ensures DistinctIds(updates) && |updates| == |rows|
    ensures forall k :: 0 <= k < |updates| ==> updates[k].id in rows && updates[k].flag == FlagOf(rows[updates[k].id], cfg, extract)
    ensures forall id :: id in rows ==> exists k :: 0 <= k < |updates| && updates[k].id == id
    ensures flagged == |Flagged(Flags(rows, cfg, extract), rows.Keys)|
  {
    var rs := rows;
    var todo := rs.Keys;
    ghost var done: set<nat> := {};
    ghost var fl := Flags(rs, cfg, extract);
    updates := [];
    flagged := 0;
    assert Flagged(fl, done) == {};
    while todo != {}
      invariant CollectInv(rs.Keys, fl, todo, done, updates, flagged)
      decreases |todo|
    {
      var id :| id in todo;
      var row := rs[id];
      var isNsfw := ComputeFlag(row, cfg, extract);
      FlagsAt(rs, cfg, extract, id);
      CollectStep(rs.Keys, fl, todo, done, updates, flagged, id);
      updates := updates + [FlagUpdate(isNsfw, id)];
      if isNsfw != 0 {
        flagged := flagged + 1;
      }
      todo := todo - {id};
      done := done + {id};
    }
    CoversAll(updates, rs, cfg, extract);
  }

  /** The flag of one series in `Flags`. */
  lemma FlagsAt(rows: map<nat, NsfwRow>, cfg: NsfwConfig, extract: Option<String> -> seq<String>, id: nat)
    requires id in rows
    ensures Flags(rows, cfg, extract)[id] == FlagOf(rows[id], cfg, extract)
  {
  }

  /** The invariant of the loop of `CollectUpdates`: `done` and `todo` split
      the ids, `updates` covers `done` and `flagged` counts its non-zero flags. */
  ghost predicate CollectInv(ids: set<nat>, flags: map<nat, int>, todo: set<nat>, done: set<nat>,
                             updates: seq<FlagUpdate>, flagged: nat) {
    && flags.Keys == ids
    && todo !! done && todo + done == ids
    && Covers(updates, done, flags)
    && flagged == |Flagged(flags, done)|
  }

  /** One turn of the loop keeps its invariant. */
  lemma CollectStep(ids: set<nat>, flags: map<nat, int>, todo: set<nat>, done: set<nat>,
                    updates: seq<FlagUpdate>, flagged: nat, id: nat)
    requires CollectInv(ids, flags, todo, done, updates, flagged) && id in todo
    ensures CollectInv(ids, flags, todo - {id}, done + {id}, updates + [FlagUpdate(flags[id], id)],
                       flagged + (if flags[id] != 0 then 1 else 0))
    ensures |todo - {id}| < |todo|
  {
    FlaggedStep(flags, done, id);
    CoversStep(updates, done, flags, id);
  }

  /** `updates` holds one pair per series of `done`, each with its flag in `flags`. */
  ghost predicate Covers(updates: seq<FlagUpdate>, done: set<nat>, flags: map<nat, int>) {
    && |updates| == |done|
    && DistinctIds(updates)
    && (forall k :: 0 <= k < |updates| ==> updates[k].id in done && updates[k].id in flags && updates[k].flag == flags[updates[k].id])
    && (forall id :: id in done ==> exists k :: 0 <= k < |updates| && updates[k].id == id)
  }

  /** Adding the pair of a series not yet seen. */
  lemma CoversStep(updates: seq<FlagUpdate>, done: set<nat>, flags: map<nat, int>, id: nat)
    requires Covers(updates, done, flags) && id in flags && id !in done
    ensures Covers(updates + [FlagUpdate(flags[id], id)], done + {id}, flags)
  {
    var us := updates + [FlagUpdate(flags[id], id)];
    forall x | x in done + {id} ensures exists k :: 0 <= k < |us| && us[k].id == x {
      if x == id {
        assert us[|updates|].id == x;
      } else {
        var k :| 0 <= k < |updates| && updates[k].id == x;
        assert us[k].id == x;
      }
    }
  }

  /** The pairs of every series, spelled out. */
  lemma CoversAll(updates: seq<FlagUpdate>, rows: map<nat, NsfwRow>, cfg: NsfwConfig, extract: Option<String> -> seq<String>)
    requires Covers(updates, rows.Keys, Flags(rows, cfg, extract))
    ensures DistinctIds(updates) && |updates| == |rows|
    ensures forall k :: 0 <= k < |updates| ==> updates[k].id in rows && updates[k].flag == FlagOf(rows[updates[k].id], cfg, extract)
    ensures forall id :: id in rows ==> exists k :: 0 <= k < |updates| && updates[k].id == id
  {
  }

  /** The flag of one selected row: `int(override)`, else 1 or 0. */
  method ComputeFlag(row: NsfwRow, cfg: NsfwConfig, extract: Option<String> -> seq<String>) returns (isNsfw: int)
    ensures isNsfw == FlagOf(row, cfg, extract)
  {
    if row.nsfwOverride.Some? {
      isNsfw := row.nsfwOverride.value;
    } else {
      isNsfw := if DetermineSeriesNsfw(Some(row), cfg, extract) then 1 else 0;
    }
  }

  /** Counting one more series. */
  lemma FlaggedStep(flags: map<nat, int>, done: set<nat>, id: nat)
    requires id in flags && id !in done
    ensures |Flagged(flags, done + {id})| == |Flagged(flags, done)| + (if flags[id] != 0 then 1 else 0)
  {
    if flags[id] != 0 {
      assert Flagged(flags, done + {id}) == Flagged(flags, done) + {id};
    } else {
      assert Flagged(flags, done + {id}) == Flagged(flags, done);
    }
  }

  /** A batch with one pair per series, each carrying the series' flag, gives
      every series its flag whatever the column held before. */
  lemma BatchGivesFlags(before: map<nat, int>, updates: seq<FlagUpdate>, rows: map<nat, NsfwRow>,
                        cfg: NsfwConfig, extract: Option<String> -> seq<String>)
    requires before.Keys == rows.Keys && DistinctIds(updates)
    requires forall k :: 0 <= k < |updates| ==> updates[k].id in rows && updates[k].flag == FlagOf(rows[updates[k].id], cfg, extract)
    requires forall id :: id in rows ==> exists k :: 0 <= k < |updates| && updates[k].id == id
    ensures Written(before, updates) == Flags(rows, cfg, extract)
    ensures updates == [] ==> before == Flags(rows, cfg, extract)
  {
    WrittenIsLastWrite(before, updates);
    forall id | id in rows
      ensures Written(before, updates)[id] == FlagOf(rows[id], cfg, extract)
    {
      var k :| 0 <= k < |updates| && updates[k].id == id;
      LastFlagDistinct(updates, k);
    }
  }

  /** The `is_nsfw` column of the `series` table, with the columns the
      classifier reads, by series id. */
  class NsfwColumns {
    var rows: map<nat, NsfwRow>
    var isNsfw: map<nat, int>

    ghost predicate Valid()
      reads this
    {
      isNsfw.Keys == rows.Keys && forall id :: id in rows ==> rows[id].id == Some(id)
    }

    constructor()
      ensures Valid() && rows == map[] && isNsfw == map[]
    {
      rows := map[];
      isNsfw := map[];
    }

    /** `executemany` of the UPDATE over a batch. */
    method ApplyUpdates(updates: seq<FlagUpdate>)
      modifies this
      ensures rows == old(rows)
      ensures isNsfw == Written(old(isNsfw), updates)
    {
      var i := 0;
      while i < |updates|
        invariant 0 <= i <= |updates|
        invariant rows == old(rows)
        invariant isNsfw == Written(old(isNsfw), updates[..i])
      {
        assert updates[..i + 1][..i] == updates[..i];
        var u := updates[i];
        if u.id in isNsfw {
          isNsfw := isNsfw[u.id := u.flag];
        }
        i := i + 1;
      }
      assert updates[..i] == updates;
    }

    /** `recompute_nsfw_flags` with the configuration already read: every
        series gets the flag its override or the cascade gives it, whatever
        it held before, so a second run changes nothing. */
    method RecomputeNsfwFlags(cfg: NsfwConfig, extract: Option<String> -> seq<String>) returns (flagged: nat)
      requires Valid()
      modifies this
      ensures Valid() && rows == old(rows)
      ensures isNsfw == Flags(rows, cfg, extract)
      ensures flagged == |Flagged(Flags(rows, cfg, extract), rows.Keys)|
    {
      var updates;
      updates, flagged := CollectUpdates(rows, cfg, extract);
      BatchGivesFlags(isNsfw, updates, rows, cfg, extract);
      if updates != [] {
        ApplyUpdates(updates);
      }
    }
  }
}
