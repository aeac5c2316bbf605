/** File-name helpers of the scanner: which files are archives, the natural
    sort key used to order pages, and the volume/chapter numbers read from a
    file name. Regular-expression searches are written out as "the first
    position at which the pattern matches". Numbers are exact rationals. */
module ScannerUtils {
  import opened Text
  import opened Wrappers
  import opened Collections

  // ---------------------------------------------------------------------
  // Archive files

  /** `is_cbr_or_cbz`: the lower-cased name ends in ".cbz" or ".cbr". */
  predicate IsCbrOrCbz(filename: String) {
    EndsWith(LowerStr(filename), ".cbz") || EndsWith(LowerStr(filename), ".cbr")
  }

  lemma IsCbrOrCbzIgnoresCase(f: String)
    ensures IsCbrOrCbz(f) <==> IsCbrOrCbz(LowerStr(f))
  {
    LowerStrIsLowered(f);
  }

  predicate AllDots(s: String) { forall i :: 0 <= i < |s| ==> s[i] == '.' }

  /** Index of the last '.' in `s`, or -1. */
  function LastDot(s: String): (d: int)
    ensures -1 <= d < |s|
    ensures d >= 0 ==> s[d] == '.'
    ensures forall i :: d < i < |s| ==> s[i] != '.'
  {
    if s == [] then -1
    else if s[|s| - 1] == '.' then |s| - 1
    else LastDot(s[..|s| - 1])
  }

  /** `os.path.splitext` of a name without directory separators: the extension
      starts at the last dot, unless only dots come before it. */
  function SplitExt(f: String): (r: (String, String))
    ensures r.0 + r.1 == f
    ensures r.1 == [] || (r.1[0] == '.' && forall i :: 1 <= i < |r.1| ==> r.1[i] != '.')
  {
    var d := LastDot(f);
    if d < 0 || AllDots(f[..d]) then (f, [])
    else (f[..d], f[d..])
  }

  function Stem(f: String): String { SplitExt(f).0 }

  function Ext(f: String): String { SplitExt(f).1 }

  /** An archive name with something other than dots before its suffix has a
      ".cbz"/".cbr" extension, so the inspector dispatches on it. */
  lemma ArchiveNameHasArchiveExt(f: String)
    requires IsCbrOrCbz(f)
    requires exists i :: 0 <= i < |f| - 4 && f[i] != '.'
    ensures LowerStr(Ext(f)) == ".cbz" || LowerStr(Ext(f)) == ".cbr"
  {
    var n := |f|;
    var stem, ext := f[..n - 4], f[n - 4..];
    assert LowerStr(f)[n - 4..] == LowerStr(ext);
    assert f == stem + ext;
    assert ext[0] == '.' && forall j :: 1 <= j < |ext| ==> ext[j] != '.' by {
      assert LowerStr(ext)[0] == '.';
      forall j | 1 <= j < |ext| ensures ext[j] != '.' { assert LowerStr(ext)[j] != '.'; }
    }
    LastDotOfSuffix(stem, ext);
    var i :| 0 <= i < n - 4 && f[i] != '.';
    assert f[..n - 4][i] == f[i];
    assert !AllDots(f[..n - 4]);
  }

  /** A hidden archive such as ".cbz" passes the archive filter but has no
      extension, so the inspector reads nothing from it. */
  lemma HiddenArchiveHasNoExt()
    ensures IsCbrOrCbz(".cbz") && Ext(".cbz") == []
  {
    assert LowerStr(".cbz") == ".cbz";
    LastDotOfSuffix([], ".cbz");
    assert [] + ".cbz" == ".cbz";
  }

  // ---------------------------------------------------------------------
  // Natural sort key

  /** One element of `natural_sort_key`: lower-cased text or the value of a run of digits. */
  datatype KeyPart = TextPart(text: String) | NumPart(num: nat)

  type Key = seq<KeyPart>

  /** Length of the run of non-digits at the start of `s`. */
  function NonDigitRun(s: String): (n: nat)
    ensures n <= |s|
    ensures forall i :: 0 <= i < n ==> !IsDigit(s[i])
    ensures n == |s| || IsDigit(s[n])
  {
    if s == [] || IsDigit(s[0]) then 0 else 1 + NonDigitRun(s[1..])
  }

  /** `natural_sort_key(s)`: `re.split(r'(\d+)', s)` with digit runs turned into
      integers and the text between them lower-cased. */
  function NaturalSortKey(s: String): (k: Key)
    ensures |k| % 2 == 1 && k[0].TextPart?
    decreases |s|
  {
    var n := NonDigitRun(s);
    if n == |s| then [TextPart(LowerStr(s))]
    else
      var d := DigitRun(s[n..]);
      [TextPart(LowerStr(s[..n])), NumPart(DigitsValue(s[n..][..d]))] + NaturalSortKey(s[n..][d..])
  }

  /** Text and numbers alternate: text at even positions, numbers at odd ones,
      and the key starts and ends with text. */
  predicate Alternates(k: Key) {
    |k| % 2 == 1 && forall i :: 0 <= i < |k| ==> (k[i].TextPart? <==> i % 2 == 0)
  }

  lemma {:induction false} NaturalSortKeyAlternates(s: String)
    ensures Alternates(NaturalSortKey(s))
    decreases |s|
  {
    var n := NonDigitRun(s);
    if n < |s| {
      var d := DigitRun(s[n..]);
      NaturalSortKeyAlternates(s[n..][d..]);
      AlternatesPrepend(LowerStr(s[..n]), DigitsValue(s[n..][..d]), NaturalSortKey(s[n..][d..]));
    }
  }

  lemma AlternatesPrepend(t: String, v: nat, k: Key)
    requires Alternates(k)
    ensures Alternates([TextPart(t), NumPart(v)] + k)
  {
    var k' := [TextPart(t), NumPart(v)] + k;
    forall i | 2 <= i < |k'| ensures (k'[i].TextPart? <==> i % 2 == 0) {
      assert k'[i] == k[i - 2];
    }
  }

  /** Every text part holds no digit and every number comes from at least one digit. */
  lemma {:induction false} NaturalSortKeyTextHasNoDigits(s: String)
    ensures forall i :: 0 <= i < |NaturalSortKey(s)| && NaturalSortKey(s)[i].TextPart? ==>
              forall j :: 0 <= j < |NaturalSortKey(s)[i].text| ==> !IsDigit(NaturalSortKey(s)[i].text[j])
    decreases |s|
  {
    var n := NonDigitRun(s);
    if n < |s| {
      var d := DigitRun(s[n..]);
      NaturalSortKeyTextHasNoDigits(s[n..][d..]);
    }
  }

  lemma {:induction false} NonDigitRunLower(s: String)
    ensures NonDigitRun(LowerStr(s)) == NonDigitRun(s)
  {
    if s != [] && !IsDigit(s[0]) {
      assert LowerStr(s)[1..] == LowerStr(s[1..]);
      NonDigitRunLower(s[1..]);
    }
  }

  lemma {:induction false} DigitRunLower(s: String)
    ensures DigitRun(LowerStr(s)) == DigitRun(s)
  {
    if s != [] && IsDigit(s[0]) {
      assert LowerStr(s)[1..] == LowerStr(s[1..]);
      DigitRunLower(s[1..]);
    }
  }

  /** The key ignores case: `natural_sort_key(s) == natural_sort_key(s.lower())`. */
  lemma {:induction false} NaturalSortKeyIgnoresCase(s: String)
    ensures NaturalSortKey(LowerStr(s)) == NaturalSortKey(s)
    decreases |s|
  {
    var l := LowerStr(s);
    var n := NonDigitRun(s);
    assert NonDigitRun(l) == n by { NonDigitRunLower(s); }
    if n == |s| {
      LowerStrIsLowered(s);
    } else {
      var t := s[n..];
      var d := DigitRun(t);
      assert l[n..] == LowerStr(t) by { LowerStrSlice(s, n); }
      assert DigitRun(l[n..]) == d by { DigitRunLower(t); }
      assert LowerStr(l[..n]) == LowerStr(s[..n]) by {
        LowerStrSlice(s, n);
        LowerStrIsLowered(s[..n]);
      }
      assert l[n..][..d] == t[..d] by { DigitsIgnoreCase(t, d); }
      assert NaturalSortKey(l[n..][d..]) == NaturalSortKey(t[d..]) by {
        LowerStrSlice(t, d);
        NaturalSortKeyIgnoresCase(t[d..]);
      }
      KeyCongruent(l, s, n, d);
    }
  }

  /** Two strings that split alike into leading text, first number and rest,
      with equal keys for each piece, have equal keys. */
  lemma KeyCongruent(x: String, y: String, n: nat, d: nat)
    requires n == NonDigitRun(x) == NonDigitRun(y) && n < |x| && n < |y|
    requires d == DigitRun(x[n..]) == DigitRun(y[n..])
    requires LowerStr(x[..n]) == LowerStr(y[..n]) && x[n..][..d] == y[n..][..d]
    requires NaturalSortKey(x[n..][d..]) == NaturalSortKey(y[n..][d..])
    ensures NaturalSortKey(x) == NaturalSortKey(y)
  {
    KeyUnfold(x, n, d);
    KeyUnfold(y, n, d);
  }

  /** One step of `natural_sort_key`: the leading text, the first number, and the key of the rest. */
  lemma KeyUnfold(x: String, n: nat, d: nat)
    requires n == NonDigitRun(x) < |x| && d == DigitRun(x[n..])
    ensures NaturalSortKey(x) == [TextPart(LowerStr(x[..n])), NumPart(DigitsValue(x[n..][..d]))] + NaturalSortKey(x[n..][d..])
  {
  }

  /** Lower-casing leaves a run of digits as it is. */
  lemma DigitsIgnoreCase(t: String, d: nat)
    requires d <= |t| && AllDigits(t[..d])
    ensures LowerStr(t)[..d] == t[..d]
  {
    forall j | 0 <= j < d ensures LowerStr(t)[j] == t[j] {
      assert t[..d][j] == t[j];
    }
  }

  /** Python's `<` on two key parts of the same kind. */
  predicate PartLess(a: KeyPart, b: KeyPart) {
    match (a, b)
    case (TextPart(x), TextPart(y)) => LexLess(x, y)
    case (NumPart(x), NumPart(y)) => x < y
    case _ => false
  }

  /** Python's `<` on lists: the first differing element decides, a proper prefix is smaller. */
  predicate KeyLess(a: Key, b: Key)
    decreases |a|
  {
    if a == [] then b != []
    else if b == [] then false
    else if a[0] != b[0] then PartLess(a[0], b[0])
    else KeyLess(a[1..], b[1..])
  }

  /** Two keys never put a number against text at the first place they differ,
      so Python's comparison of natural keys never raises. */
  predicate SameShape(a: Key, b: Key) {
    forall i :: 0 <= i < |a| && i < |b| ==> a[i].TextPart? == b[i].TextPart?
  }

  lemma NaturalKeysSameShape(s: String, t: String)
    ensures SameShape(NaturalSortKey(s), NaturalSortKey(t))
  {
    NaturalSortKeyAlternates(s);
    NaturalSortKeyAlternates(t);
  }

  lemma {:induction false} KeyLessIrreflexive(a: Key)
    ensures !KeyLess(a, a)
  {
    if a != [] { KeyLessIrreflexive(a[1..]); }
  }

  lemma {:induction false} KeyLessTransitive(a: Key, b: Key, c: Key)
    requires SameShape(a, b) && SameShape(b, c)
    requires KeyLess(a, b) && KeyLess(b, c)
    ensures KeyLess(a, c)
    decreases |a|
  {
    if a != [] && b != [] && c != [] {
      if a[0] == b[0] && b[0] == c[0] {
        KeyLessTransitive(a[1..], b[1..], c[1..]);
      } else if a[0] != b[0] && b[0] != c[0] {
        match a[0]
        case TextPart(x) =>
          if a[0] == c[0] { LexLessAsymmetric(x, b[0].text); }
          else { LexLessTransitive(x, b[0].text, c[0].text); }
        case NumPart(x) =>
      }
    }
  }

  lemma {:induction false} KeyLessTotal(a: Key, b: Key)
    requires SameShape(a, b)
    ensures a == b || KeyLess(a, b) || KeyLess(b, a)
    decreases |a|
  {
    if a != [] && b != [] {
      if a[0] == b[0] {
        KeyLessTotal(a[1..], b[1..]);
        if a[1..] == b[1..] {
          assert a == [a[0]] + a[1..] && b == [b[0]] + b[1..];
        }
      } else {
        match a[0]
        case TextPart(x) => LexLessTotal(x, b[0].text);
        case NumPart(x) =>
      }
    }
  }

  lemma {:induction false} KeyLessAsymmetric(a: Key, b: Key)
    requires KeyLess(a, b)
    ensures !KeyLess(b, a)
    decreases |a|
  {
    if a != [] && b != [] {
      if a[0] == b[0] {
        KeyLessAsymmetric(a[1..], b[1..]);
      } else if a[0].TextPart? && b[0].TextPart? {
        LexLessAsymmetric(a[0].text, b[0].text);
      }
    }
  }

  lemma {:induction false} NonDigitRunOfPrefix(p: String, rest: String)
    requires forall i :: 0 <= i < |p| ==> !IsDigit(p[i])
    requires rest != [] && IsDigit(rest[0])
    ensures NonDigitRun(p + rest) == |p|
  {
    if p != [] {
      assert (p + rest)[1..] == p[1..] + rest;
      NonDigitRunOfPrefix(p[1..], rest);
    }
  }

  lemma {:induction false} DigitRunOfPrefix(d: String, rest: String)
    requires AllDigits(d)
    requires rest == [] || !IsDigit(rest[0])
    ensures DigitRun(d + rest) == |d|
  {
    if d != [] {
      assert (d + rest)[1..] == d[1..] + rest;
      DigitRunOfPrefix(d[1..], rest);
    }
  }

  /** A name made of text, a digit run and a rest that starts with no digit has
      the text and the run's value as its first two key parts. */
  lemma NaturalSortKeyOfRun(p: String, d: String, r: String)
    requires forall i :: 0 <= i < |p| ==> !IsDigit(p[i])
    requires d != [] && AllDigits(d)
    requires r == [] || !IsDigit(r[0])
    ensures NaturalSortKey(p + d + r) == [TextPart(LowerStr(p)), NumPart(DigitsValue(d))] + NaturalSortKey(r)
  {
    var s := p + d + r;
    assert s == p + (d + r);
    NonDigitRunOfPrefix(p, d + r);
    assert s[|p|..] == d + r && s[..|p|] == p;
    DigitRunOfPrefix(d, r);
    assert (d + r)[..|d|] == d && (d + r)[|d|..] == r;
  }

  /** Digit runs compare by value, not character by character: with the same
      text around them, "page2.jpg" sorts before "page10.jpg". */
  lemma SmallerNumberSortsFirst(p: String, d1: String, d2: String, r1: String, r2: String)
    requires forall i :: 0 <= i < |p| ==> !IsDigit(p[i])
    requires d1 != [] && AllDigits(d1) && d2 != [] && AllDigits(d2)
    requires DigitsValue(d1) < DigitsValue(d2)
    requires r1 == [] || !IsDigit(r1[0])
    requires r2 == [] || !IsDigit(r2[0])
    ensures KeyLess(NaturalSortKey(p + d1 + r1), NaturalSortKey(p + d2 + r2))
  {
    NaturalSortKeyOfRun(p, d1, r1);
    NaturalSortKeyOfRun(p, d2, r2);
    KeyLessAtNumber(TextPart(LowerStr(p)), DigitsValue(d1), DigitsValue(d2), NaturalSortKey(r1), NaturalSortKey(r2));
  }

  lemma KeyLessAtNumber(t: KeyPart, x: nat, y: nat, k1: Key, k2: Key)
    requires x < y
    ensures KeyLess([t, NumPart(x)] + k1, [t, NumPart(y)] + k2)
  {
    var a, b := [t, NumPart(x)] + k1, [t, NumPart(y)] + k2;
    assert a[1..][0] == NumPart(x) && b[1..][0] == NumPart(y);
  }

  /** Index of the name that sorts first: the smallest key, the earliest among
      equal keys (Python's sort is stable). */
  function FirstInNaturalOrder(names: seq<String>): (k: nat)
    requires names != []
    ensures k < |names|
    ensures forall j :: 0 <= j < k ==> KeyLess(NaturalSortKey(names[k]), NaturalSortKey(names[j]))
    ensures forall j :: k < j < |names| ==> !KeyLess(NaturalSortKey(names[j]), NaturalSortKey(names[k]))
  {
    if |names| == 1 then 0
    else
      var m := FirstInNaturalOrder(names[1..]) + 1;
      var km, k0 := NaturalSortKey(names[m]), NaturalSortKey(names[0]);
      NaturalKeysSameShape(names[m], names[0]);
      if KeyLess(km, k0) then
        FirstIsBelowRest(names, m);
        m
      else
        FirstStaysFirst(names, m);
        0
  }

  lemma FirstIsBelowRest(names: seq<String>, m: nat)
    requires 1 <= m < |names|
    requires forall j :: 1 <= j < m ==> KeyLess(NaturalSortKey(names[m]), NaturalSortKey(names[j]))
    requires KeyLess(NaturalSortKey(names[m]), NaturalSortKey(names[0]))
    ensures forall j :: 0 <= j < m ==> KeyLess(NaturalSortKey(names[m]), NaturalSortKey(names[j]))
  {
  }

  lemma FirstStaysFirst(names: seq<String>, m: nat)
    requires 1 <= m < |names|
    requires forall j :: m < j < |names| ==> !KeyLess(NaturalSortKey(names[j]), NaturalSortKey(names[m]))
    requires forall j :: 1 <= j < m ==> KeyLess(NaturalSortKey(names[m]), NaturalSortKey(names[j]))
    requires !KeyLess(NaturalSortKey(names[m]), NaturalSortKey(names[0]))
    ensures forall j :: 0 < j < |names| ==> !KeyLess(NaturalSortKey(names[j]), NaturalSortKey(names[0]))
  {
    var k0, km := NaturalSortKey(names[0]), NaturalSortKey(names[m]);
    forall j | 0 < j < |names|
      ensures !KeyLess(NaturalSortKey(names[j]), k0)
    {
      var kj := NaturalSortKey(names[j]);
      NaturalKeysSameShape(names[j], names[0]);
      NaturalKeysSameShape(names[m], names[j]);
      NaturalKeysSameShape(names[j], names[m]);
      NaturalKeysSameShape(names[m], names[0]);
      if KeyLess(kj, k0) {
        if j == m {
        } else if j < m {
          KeyLessTransitive(km, kj, k0);
        } else {
          KeyLessTotal(kj, km);
          if KeyLess(km, kj) { KeyLessTransitive(km, kj, k0); }
        }
      }
    }
  }

  // ---------------------------------------------------------------------
  // Volume and chapter numbers

  /** Length of `\d+(?:\.\d+)?` at the start of `s`, or 0 when no digit starts it. */
  function NumberLength(s: String): (n: nat)
    ensures n <= |s|
    ensures n > 0 ==> IsDigit(s[0])
  {
    var d := DigitRun(s);
    if d == 0 then 0
    else if d < |s| && s[d] == '.' && DigitRun(s[d + 1..]) > 0 then d + 1 + DigitRun(s[d + 1..])
    else d
  }

  /** The value of a number that `NumberLength` measured, as `float()` reads it. */
  function NumberValue(s: String): (v: real)
    requires NumberLength(s) > 0
    ensures v >= 0.0
  {
    var d := DigitRun(s);
    var whole := DigitsValue(s[..d]) as real;
    if d < |s| && s[d] == '.' && DigitRun(s[d + 1..]) > 0 then
      var f := DigitRun(s[d + 1..]);
      whole + (DigitsValue(s[d + 1..][..f]) as real) / (Pow10(f) as real)
    else whole
  }

  /** `\.?\s*(\d+(?:\.\d+)?)` at index `j` of `s`. */
  function TailNumber(s: String, j: nat): (r: Option<real>)
    requires j <= |s|
  {
    var k := if j < |s| && s[j] == '.' then j + 1 else j;
    var k2 := k + SpaceRun(s[k..]);
    if NumberLength(s[k2..]) == 0 then None else Some(NumberValue(s[k2..]))
  }

  /** `\b` before a word character at index `i`. */
  predicate WordStart(s: String, i: nat)
    requires i <= |s|
  {
    i == 0 || !IsWordChar(s[i - 1])
  }

  /** Case-insensitive literal `w` at index `i` of `s`. */
  predicate WordAt(s: String, i: nat, w: String) {
    i + |w| <= |s| && LowerStr(s[i..i + |w|]) == w
  }

  /** `\bv(?:ol)?\.?\s*(\d+(?:\.\d+)?)` tried at index `i` (case-insensitive). */
  function VolumeAt(s: String, i: nat): (r: Option<real>)
    requires i <= |s|
  {
    if !WordStart(s, i) || !WordAt(s, i, "v") then None
    else if WordAt(s, i, "vol") && TailNumber(s, i + 3).Some? then TailNumber(s, i + 3)
    else TailNumber(s, i + 1)
  }

  /** `\b(?:c|ch|chapter|unit)\.?\s*(\d+(?:\.\d+)?)` tried at index `i`: the
      alternatives in their written order, the first that leads to a number. */
  function ChapterAt(s: String, i: nat): (r: Option<real>)
    requires i <= |s|
  {
    if !WordStart(s, i) then None
    else ChapterWordAt(s, i, ["c", "ch", "chapter", "unit"])
  }

  function ChapterWordAt(s: String, i: nat, words: seq<String>): (r: Option<real>)
    requires i <= |s|
  {
    if words == [] then None
    else if WordAt(s, i, words[0]) && TailNumber(s, i + |words[0]|).Some? then TailNumber(s, i + |words[0]|)
    else ChapterWordAt(s, i, words[1..])
  }

  /** `\s(\d+(?:\.\d+)?)$` tried at index `i`; `$` also matches before a final newline. */
  function TrailingNumberAt(s: String, i: nat): (r: Option<real>)
    requires i <= |s|
  {
    if i < |s| && IsSpace(s[i]) then
      var rest := s[i + 1..];
      var n := NumberLength(rest);
      if n > 0 && (n == |rest| || (n == |rest| - 1 && rest[n] == '\n')) then Some(NumberValue(rest))
      else None
    else None
  }

  /** The three patterns `parse_filename_info` searches for. */
  datatype Pattern = VolumeToken | ChapterToken | TrailingNumber

  function MatchAt(p: Pattern, s: String, i: nat): Option<real>
    requires i <= |s|
  {
    match p
    case VolumeToken => VolumeAt(s, i)
    case ChapterToken => ChapterAt(s, i)
    case TrailingNumber => TrailingNumberAt(s, i)
  }

  /** The pattern tried at every index, as one function (no match past the end). */
  function MatchFn(p: Pattern, s: String): nat -> Option<real> {
    (i: nat) => if i <= |s| then MatchAt(p, s, i) else None
  }

  lemma MatchFnAt(p: Pattern, s: String)
    ensures forall i :: 0 <= i <= |s| ==> MatchFn(p, s)(i) == MatchAt(p, s, i)
  {
  }

  /** `re.search`: the leftmost index at or after `from` where the pattern matches. */
  function Search(p: Pattern, s: String, from: nat): (r: Option<(nat, real)>)
    requires from <= |s|
    ensures r.Some? ==> from <= r.value.0 <= |s| && MatchAt(p, s, r.value.0) == Some(r.value.1)
    ensures r.Some? ==> forall j :: from <= j < r.value.0 ==> MatchAt(p, s, j).None?
    ensures r.None? ==> forall j :: from <= j <= |s| ==> MatchAt(p, s, j).None?
  {
    MatchFnAt(p, s);
    Leftmost(MatchFn(p, s), from, |s|)
  }

  function Found(p: Pattern, s: String): Option<real> {
    match Search(p, s, 0)
    case Some(m) => Some(m.1)
    case None => None
  }

  /** The volume and chapter `parse_filename_info` reads from a file name. */
  datatype FileInfo = FileInfo(volume: Option<real>, chapter: Option<real>)

  /** `parse_filename_info(filename)`. */
  function ParseFilenameInfo(filename: String): (r: FileInfo)
    ensures r.volume.Some? ==>
              exists i :: 0 <= i <= |Stem(filename)| && VolumeAt(Stem(filename), i) == r.volume
                          && forall j :: 0 <= j < i ==> VolumeAt(Stem(filename), j).None?
    ensures r.volume.None? ==> forall i :: 0 <= i <= |Stem(filename)| ==> VolumeAt(Stem(filename), i).None?
    ensures Found(ChapterToken, Stem(filename)).Some? ==> r.chapter == Found(ChapterToken, Stem(filename))
    ensures r.volume.Some? && Found(ChapterToken, Stem(filename)).None? ==> r.chapter.None?
  {
    var name := Stem(filename);
    assert forall i :: 0 <= i <= |name| ==> MatchAt(VolumeToken, name, i) == VolumeAt(name, i);
    var vol := Found(VolumeToken, name);
    assert Search(VolumeToken, name, 0).Some? ==>
             var i := Search(VolumeToken, name, 0).value.0;
             VolumeAt(name, i) == vol && forall j :: 0 <= j < i ==> VolumeAt(name, j).None?;
    var ch := Found(ChapterToken, name);
    var ch' := if ch.None? && vol.None? then Found(TrailingNumber, name) else ch;
    FileInfo(vol, ch')
  }

  /** A trailing " <number>" becomes the chapter only when neither token was found. */
  lemma TrailingNumberOnlyAsFallback(filename: String)
    ensures var r := ParseFilenameInfo(filename);
            var name := Stem(filename);
            (Found(VolumeToken, name).None? && Found(ChapterToken, name).None?)
              ==> r == FileInfo(None, Found(TrailingNumber, name))
  {
  }

  /** The extension plays no part: only the name before it is inspected. */
  lemma {:induction false} ExtensionIgnored(stem: String, ext: String)
    requires exists i :: 0 <= i < |stem| && stem[i] != '.'
    requires ext != [] && ext[0] == '.' && forall i :: 1 <= i < |ext| ==> ext[i] != '.'
    ensures Stem(stem + ext) == stem
    ensures ParseFilenameInfo(stem + ext) == ParseFilenameInfo(stem + ".cbz")
  {
    LastDotOfSuffix(stem, ext);
    LastDotOfSuffix(stem, ".cbz");
    var i :| 0 <= i < |stem| && stem[i] != '.';
    assert (stem + ext)[..|stem|] == stem;
    assert (stem + ".cbz")[..|stem|] == stem;
    assert stem[i] != '.';
  }

  lemma {:induction false} LastDotOfSuffix(stem: String, ext: String)
    requires ext != [] && ext[0] == '.' && forall i :: 1 <= i < |ext| ==> ext[i] != '.'
    ensures LastDot(stem + ext) == |stem|
    decreases |ext|
  {
    var s := stem + ext;
    if |ext| > 1 {
      assert s[..|s| - 1] == stem + ext[..|ext| - 1];
      LastDotOfSuffix(stem, ext[..|ext| - 1]);
    }
  }
}
