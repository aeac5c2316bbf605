/** Strings as sequences of characters, with the handful of Python string
    operations the library relies on: character classes, `lower()`, `strip()`,
    `split()` without arguments, `' '.join(...)`, prefix/suffix tests and the
    code-point order Python uses to compare strings. Whitespace is the set
    `str.isspace()` accepts; letters, digits and case are the ASCII ones. */
module Text {

  type String = seq<char>

  /** The characters `str.isspace()` accepts, which are also the ones
      `str.split()`, `str.strip()` and the `\s` of a `re` pattern treat as
      whitespace. */
  predicate IsSpace(c: char) {
    c == ' ' || '\t' <= c <= '\r' || '\U{1C}' <= c <= '\U{1F}' || c == '\U{85}' || c == '\U{A0}'
    || c == '\U{1680}' || '\U{2000}' <= c <= '\U{200A}' || c == '\U{2028}' || c == '\U{2029}'
    || c == '\U{202F}' || c == '\U{205F}' || c == '\U{3000}'
  }

  predicate IsDigit(c: char) { '0' <= c <= '9' }

  predicate IsUpper(c: char) { 'A' <= c <= 'Z' }

  predicate IsLowerLetter(c: char) { 'a' <= c <= 'z' }

  /** The characters `\w` matches: letters, digits and the underscore. */
  predicate IsWordChar(c: char) { IsUpper(c) || IsLowerLetter(c) || IsDigit(c) || c == '_' }

  function Lower(c: char): (r: char)
    ensures !IsUpper(r)
    ensures IsUpper(c) ==> IsLowerLetter(r)
    ensures !IsUpper(c) ==> r == c
  {
    if IsUpper(c) then (c as int - 'A' as int + 'a' as int) as char else c
  }

  /** Python's `s.lower()`. */
  function LowerStr(s: String): (r: String)
    ensures |r| == |s|
    ensures forall i :: 0 <= i < |s| ==> r[i] == Lower(s[i])
  {
    seq(|s|, i requires 0 <= i < |s| => Lower(s[i]))
  }

  predicate IsLowered(s: String) { forall i :: 0 <= i < |s| ==> !IsUpper(s[i]) }

  lemma LowerStrIsLowered(s: String)
    ensures IsLowered(LowerStr(s))
    ensures LowerStr(LowerStr(s)) == LowerStr(s)
  {
  }

  lemma LowerStrOfLowered(s: String)
    requires IsLowered(s)
    ensures LowerStr(s) == s
  {
  }

  lemma LowerStrSlice(s: String, i: nat)
    requires i <= |s|
    ensures LowerStr(s)[..i] == LowerStr(s[..i])
    ensures LowerStr(s)[i..] == LowerStr(s[i..])
  {
  }

  lemma LowerStrConcat(a: String, b: String)
    ensures LowerStr(a + b) == LowerStr(a) + LowerStr(b)
  {
  }

  predicate HasNoSpace(s: String) { forall i :: 0 <= i < |s| ==> !IsSpace(s[i]) }

  /** Python's `s.lstrip()`. */
  function StripLeft(s: String): (r: String)
    ensures |r| <= |s| && r == s[|s| - |r|..]
    ensures r == [] || !IsSpace(r[0])
    ensures forall i :: 0 <= i < |s| - |r| ==> IsSpace(s[i])
  {
    if s == [] || !IsSpace(s[0]) then s else StripLeft(s[1..])
  }

  /** Python's `s.rstrip()`. */
  function StripRight(s: String): (r: String)
    ensures |r| <= |s| && r == s[..|r|]
    ensures r == [] || !IsSpace(r[|r| - 1])
    ensures forall i :: |r| <= i < |s| ==> IsSpace(s[i])
  {
    if s == [] || !IsSpace(s[|s| - 1]) then s else StripRight(s[..|s| - 1])
  }

  predicate IsStripped(s: String) { s == [] || (!IsSpace(s[0]) && !IsSpace(s[|s| - 1])) }

  /** Python's `s.strip()`. */
  function Strip(s: String): (r: String)
    ensures r == [] || (!IsSpace(r[0]) && !IsSpace(r[|r| - 1]))
    ensures IsStripped(r)
    ensures |r| <= |s|
  {
    StripRight(StripLeft(s))
  }

  lemma StripOfStripped(s: String)
    requires IsStripped(s)
    ensures Strip(s) == s
  {
  }

  /** Python's `s.split()` with no argument: the maximal runs of non-space characters. */
  function Words(s: String): (ws: seq<String>)
    ensures AreWords(ws)
    decreases |s|
  {
    var t := StripLeft(s);
    if t == [] then []
    else
      var n := WordLength(t);
      FirstWord(t, n);
      var rest := Words(t[n..]);
      AreWordsCons(t[..n], rest);
      [t[..n]] + rest
  }

  lemma FirstWord(t: String, n: nat)
    requires t != [] && !IsSpace(t[0])
    requires n <= |t| && forall i :: 0 <= i < n ==> !IsSpace(t[i])
    requires n == |t| || IsSpace(t[n])
    ensures t[..n] != [] && HasNoSpace(t[..n])
  {
  }

  lemma AreWordsCons(w: String, ws: seq<String>)
    requires w != [] && HasNoSpace(w) && AreWords(ws)
    ensures AreWords([w] + ws)
  {
  }

  /** Length of the run of non-space characters at the start of `s`. */
  function WordLength(s: String): (n: nat)
    ensures n <= |s|
    ensures forall i :: 0 <= i < n ==> !IsSpace(s[i])
    ensures n == |s| || IsSpace(s[n])
  {
    if s == [] || IsSpace(s[0]) then 0 else 1 + WordLength(s[1..])
  }

  /** `sep.join(parts)`. */
  function Join(sep: String, parts: seq<String>): (r: String)
  {
    if parts == [] then []
    else if |parts| == 1 then parts[0]
    else parts[0] + sep + Join(sep, parts[1..])
  }

  /** `' '.join(s.split())`: runs of whitespace collapsed to one space, ends trimmed. */
  function CollapseSpaces(s: String): (r: String)
  {
    Join(" ", Words(s))
  }

  /** A list of words as `split()` returns them: non-empty, without whitespace. */
  predicate AreWords(ws: seq<String>) {
    forall k :: 0 <= k < |ws| ==> ws[k] != [] && HasNoSpace(ws[k])
  }

  lemma {:induction false} WordLengthOfWord(w: String, rest: String)
    requires HasNoSpace(w)
    requires rest == [] || IsSpace(rest[0])
    ensures WordLength(w + rest) == |w|
  {
    if w != [] {
      assert (w + rest)[1..] == w[1..] + rest;
      WordLengthOfWord(w[1..], rest);
    }
  }

  lemma WordsAfterSpace(x: String)
    requires x == [] || !IsSpace(x[0])
    ensures Words(" " + x) == Words(x)
  {
    assert StripLeft(" " + x) == StripLeft((" " + x)[1..]);
    assert (" " + x)[1..] == x;
  }

  /** Splitting words joined by single spaces gives the words back. */
  lemma {:induction false} WordsOfJoin(ws: seq<String>)
    requires AreWords(ws)
    ensures Words(Join(" ", ws)) == ws
    decreases |ws|
  {
    if ws == [] {
    } else if |ws| == 1 {
      var w := ws[0];
      assert StripLeft(w) == w;
      WordLengthOfWord(w, []);
      assert w + [] == w;
      assert w[..|w|] == w && w[|w|..] == [];
    } else {
      var w, rest := ws[0], Join(" ", ws[1..]);
      JoinStartsWithWord(ws[1..]);
      var s := w + " " + rest;
      assert s == Join(" ", ws);
      assert StripLeft(s) == s;
      assert s == w + (" " + rest);
      WordLengthOfWord(w, " " + rest);
      assert s[..|w|] == w && s[|w|..] == " " + rest;
      WordsAfterSpace(rest);
      WordsOfJoin(ws[1..]);
    }
  }

  lemma {:induction false} JoinStartsWithWord(ws: seq<String>)
    requires AreWords(ws)
    ensures Join(" ", ws) == [] || !IsSpace(Join(" ", ws)[0])
    ensures ws != [] ==> Join(" ", ws) != []
  {
    if |ws| > 1 {
      assert Join(" ", ws) == ws[0] + " " + Join(" ", ws[1..]);
    }
  }

  function LowerAll(ws: seq<String>): (r: seq<String>)
    ensures |r| == |ws| && forall k :: 0 <= k < |ws| ==> r[k] == LowerStr(ws[k])
  {
    seq(|ws|, k requires 0 <= k < |ws| => LowerStr(ws[k]))
  }

  lemma {:induction false} LowerJoin(ws: seq<String>)
    ensures LowerStr(Join(" ", ws)) == Join(" ", LowerAll(ws))
    decreases |ws|
  {
    if |ws| > 1 {
      LowerJoin(ws[1..]);
      assert LowerAll(ws)[1..] == LowerAll(ws[1..]);
      LowerStrConcat(ws[0] + " ", Join(" ", ws[1..]));
      LowerStrConcat(ws[0], " ");
    }
  }

  /** Lower-casing keeps a word a word. */
  lemma LowerAllAreWords(ws: seq<String>)
    requires AreWords(ws)
    ensures AreWords(LowerAll(ws))
  {
    forall k | 0 <= k < |ws| ensures LowerAll(ws)[k] != [] && HasNoSpace(LowerAll(ws)[k]) {
      assert forall i :: 0 <= i < |ws[k]| ==> LowerAll(ws)[k][i] == Lower(ws[k][i]);
    }
  }

  predicate StartsWith(s: String, p: String) { |p| <= |s| && s[..|p|] == p }

  predicate EndsWith(s: String, p: String) { |p| <= |s| && s[|s| - |p|..] == p }

  /** Python's `p in s` for strings. */
  predicate Contains(s: String, p: String) {
    exists i :: 0 <= i <= |s| - |p| && OccursAt(s, p, i)
  }

  /** `p` occurs in `s` starting at index `i`. */
  predicate OccursAt(s: String, p: String, i: int) {
    0 <= i && i + |p| <= |s| && s[i..i + |p|] == p
  }

  /** Python's `a < b` on strings: code-point lexicographic order. */
  predicate LexLess(a: String, b: String)
    decreases |a|
  {
    if a == [] then b != []
    else if b == [] then false
    else if a[0] != b[0] then a[0] < b[0]
    else LexLess(a[1..], b[1..])
  }

  predicate LexLessEq(a: String, b: String) { a == b || LexLess(a, b) }

  lemma {:induction false} LexLessIrreflexive(a: String)
    ensures !LexLess(a, a)
  {
    if a != [] { LexLessIrreflexive(a[1..]); }
  }

  lemma {:induction false} LexLessTotal(a: String, b: String)
    ensures a == b || LexLess(a, b) || LexLess(b, a)
    decreases |a|
  {
    if a != [] && b != [] && a[0] == b[0] {
      LexLessTotal(a[1..], b[1..]);
      if a[1..] == b[1..] {
        assert a == [a[0]] + a[1..] && b == [b[0]] + b[1..];
      }
    }
  }

  lemma {:induction false} LexLessTransitive(a: String, b: String, c: String)
    requires LexLess(a, b) && LexLess(b, c)
    ensures LexLess(a, c)
    decreases |a|
  {
    if a != [] && b != [] && c != [] && a[0] == b[0] && b[0] == c[0] {
      LexLessTransitive(a[1..], b[1..], c[1..]);
    }
  }

  lemma {:induction false} LexLessAsymmetric(a: String, b: String)
    requires LexLess(a, b)
    ensures !LexLess(b, a)
    decreases |a|
  {
    if a != [] && b != [] && a[0] == b[0] {
      LexLessAsymmetric(a[1..], b[1..]);
    }
  }

  /** The value of a string of decimal digits, as `int(s)` computes it. */
  function DigitsValue(s: String): (v: nat)
    requires forall i :: 0 <= i < |s| ==> IsDigit(s[i])
    decreases |s|
  {
    if s == [] then 0
    else
      assert IsDigit(s[|s| - 1]);
      DigitsValue(s[..|s| - 1]) * 10 + (s[|s| - 1] as int - '0' as int)
  }

  function Pow10(k: nat): (p: nat)
    ensures p >= 1
  {
    if k == 0 then 1 else 10 * Pow10(k - 1)
  }

  predicate AllDigits(s: String) { forall i :: 0 <= i < |s| ==> IsDigit(s[i]) }

  /** Length of the run of digits at the start of `s`. */
  function DigitRun(s: String): (n: nat)
    ensures n <= |s|
    ensures AllDigits(s[..n])
    ensures n == |s| || !IsDigit(s[n])
  {
    if s == [] || !IsDigit(s[0]) then 0 else 1 + DigitRun(s[1..])
  }

  /** Length of the run of whitespace at the start of `s`. */
  function SpaceRun(s: String): (n: nat)
    ensures n <= |s|
    ensures forall i :: 0 <= i < n ==> IsSpace(s[i])
    ensures n == |s| || !IsSpace(s[n])
  {
    if s == [] || !IsSpace(s[0]) then 0 else 1 + SpaceRun(s[1..])
  }
}
