/** The `admin_settings` key/value table of db/settings.py and the typed
    thumbnail settings read from it. */
module Settings {
  import opened Text
  import opened Wrappers
  import Json

  // ---------------------------------------------------------------------------
  // Python's int() on a string
  // ---------------------------------------------------------------------------

  /** Digits where each underscore stands between two digits, after a
      first digit. */
  predicate Underscored(r: String)
    decreases |r|
  {
    r == [] || (IsDigit(r[0]) && Underscored(r[1..])) || (|r| >= 2 && r[0] == '_' && IsDigit(r[1]) && Underscored(r[2..]))
  }

  /** The body `int()` accepts after the sign: a digit, then digits with
      single underscores between them. */
  predicate DecimalBody(b: String) {
    b != [] && IsDigit(b[0]) && Underscored(b[1..])
  }

  /** The digits of a body, underscores dropped. */
  function DigitsOnly(b: String): (r: String)
    ensures AllDigits(r) && |r| <= |b|
    ensures AllDigits(b) ==> r == b
  {
    if b == [] then []
    else if IsDigit(b[0]) then [b[0]] + DigitsOnly(b[1..])
    else DigitsOnly(b[1..])
  }

  /** A run of digits is a body. */
  lemma {:induction false} DigitsAreUnderscored(r: String)
    requires AllDigits(r)
    ensures Underscored(r)
    decreases |r|
  {
    if r != [] {
      DigitsAreUnderscored(r[1..]);
    }
  }

  /** `int(s)` for a string: None where Python raises ValueError. */
  function PyInt(s: String): (r: Option<int>)
    ensures r.Some? ==> Strip(s) != []
  {
    SignedValue(Strip(s))
  }

  /** The value of a stripped numeral: an optional sign, then a body. */
  function SignedValue(t: String): Option<int> {
    if t != [] && (t[0] == '+' || t[0] == '-') then
      if DecimalBody(t[1..]) then
        var v: int := DigitsValue(DigitsOnly(t[1..]));
        Some(if t[0] == '-' then -v else v)
      else None
    else if DecimalBody(t) then Some(DigitsValue(DigitsOnly(t)))
    else None
  }

  /** Reading back a number written in decimal gives the number. */
  lemma {:induction false} DigitsOfNatText(n: nat)
    ensures DigitsValue(Json.NatText(n)) == n
    decreases n
  {
    if n >= 10 {
      var init, d := Json.NatText(n / 10), ('0' as int + n % 10) as char;
      DigitsOfNatText(n / 10);
      var t := init + [d];
      assert t[..|t| - 1] == init;
      assert t[|t| - 1] == d;
    }
  }

  /** A decimal numeral reads as its value. */
  lemma NatTextValue(n: nat)
    ensures DecimalBody(Json.NatText(n)) && DigitsValue(DigitsOnly(Json.NatText(n))) == n
    ensures SignedValue(Json.NatText(n)) == Some(n)
  {
    var digits := Json.NatText(n);
    DigitsOfNatText(n);
    DigitsAreUnderscored(digits[1..]);
  }

  /** `int(str(i))` is `i`: the settings written as decimal text read back
      as the same number. */
  lemma PyIntOfText(i: int)
    ensures PyInt(Json.IntText(i)) == Some(i)
  {
    if i < 0 {
      PyIntOfNegative(i);
    } else {
      assert Json.IntText(i) == Json.NatText(i);
      PyIntOfNat(i);
    }
  }

  lemma PyIntOfNat(n: nat)
    ensures PyInt(Json.NatText(n)) == Some(n)
  {
    var digits := Json.NatText(n);
    NatTextValue(n);
    StripOfStripped(digits);
  }

  lemma PyIntOfNegative(i: int)
    requires i < 0
    ensures PyInt(Json.IntText(i)) == Some(i)
  {
    var n: nat := -i;
    var t := Json.IntText(i);
    assert t == "-" + Json.NatText(n);
    NegatedIsStripped(Json.NatText(n));
    PyIntOfStripped(t);
    NegativeValue(n);
  }

  lemma NegativeValue(n: nat)
    ensures SignedValue("-" + Json.NatText(n)) == Some(-(n as int))
  {
    NatTextValue(n);
    SignedNegative(Json.NatText(n));
  }

  /** A minus sign before digits leaves nothing to strip. */
  lemma NegatedIsStripped(digits: String)
    requires digits != [] && AllDigits(digits)
    ensures IsStripped("-" + digits)
  {
    var t := "-" + digits;
    assert t[0] == '-' && t[|t| - 1] == digits[|digits| - 1];
  }

  /** A string with nothing to strip is read as it stands. */
  lemma PyIntOfStripped(t: String)
    requires IsStripped(t)
    ensures PyInt(t) == SignedValue(t)
  {
    StripOfStripped(t);
  }

  /** A minus sign negates the body's value. */
  lemma SignedNegative(body: String)
    requires DecimalBody(body)
    ensures SignedValue("-" + body) == Some(-(DigitsValue(DigitsOnly(body)) as int))
  {
    var t := "-" + body;
    assert t[0] == '-' && t[1..] == body;
  }

  // ---------------------------------------------------------------------------
  // Thumbnail settings
  // ---------------------------------------------------------------------------

  /** The dictionary `get_thumbnail_settings` returns. */
  datatype Thumbnails = Thumbnails(quality: int, ratio: String, width: int, height: int, format: String, requireApproval: int)

  /** `settings_dict.get(key, default)`. */
  function Get(settings: map<String, String>, key: String, default: String): String {
    if key in settings then settings[key] else default
  }

  /** `int(text)`, with the text that made `int` fail as the error. */
  function ReadInt(text: String): (r: Result<int, String>)
    ensures r.Err? <==> PyInt(text).None?
    ensures r.Err? ==> r.error == text
    ensures r.Ok? ==> PyInt(text) == Some(r.value)
  {
    match PyInt(text)
    case Some(v) => Ok(v)
    case None => Err(text)
  }

  /** The dictionary built from the four integer readings and the two
      texts; the first reading of quality, width, height and approval that
      failed raises. */
  function Assemble(q: Result<int, String>, ratio: String, w: Result<int, String>, h: Result<int, String>,
                    format: String, a: Result<int, String>): Result<Thumbnails, String>
  {
    if q.Err? then Err(q.error)
    else if w.Err? then Err(w.error)
    else if h.Err? then Err(h.error)
    else if a.Err? then Err(a.error)
    else Ok(Thumbnails(q.value, ratio, w.value, h.value, format, a.value))
  }

  /** The typed thumbnail settings, missing keys taking their defaults. */
  function ThumbnailsOf(settings: map<String, String>): Result<Thumbnails, String> {
    Assemble(ReadInt(Get(settings, "thumb_quality", "70")), Get(settings, "thumb_ratio", "9:14"),
             ReadInt(Get(settings, "thumb_width", "225")), ReadInt(Get(settings, "thumb_height", "350")),
             Get(settings, "thumb_format", "webp"), ReadInt(Get(settings, "require_approval", "0")))
  }

  /** A run of digits reads as its value. */
  lemma DigitsSigned(d: String)
    requires d != [] && AllDigits(d)
    ensures SignedValue(d) == Some(DigitsValue(d))
  {
    DigitsAreUnderscored(d[1..]);
  }

  lemma QualityDefault() ensures PyInt("70") == Some(70) {
    StripOfStripped("70");
    DigitsSigned("70");
    assert "70"[..1] == "7";
  }

  lemma WidthDefault() ensures PyInt("225") == Some(225) {
    StripOfStripped("225");
    DigitsSigned("225");
    assert "225"[..2] == "22" && "22"[..1] == "2";
  }

  lemma HeightDefault() ensures PyInt("350") == Some(350) {
    StripOfStripped("350");
    DigitsSigned("350");
    assert "350"[..2] == "35" && "35"[..1] == "3";
  }

  lemma ApprovalDefault() ensures PyInt("0") == Some(0) {
    StripOfStripped("0");
    DigitsSigned("0");
    assert "0"[..0] == "";
  }

  /** The defaults: an empty table gives quality 70, ratio 9:14, 225 by 350,
      webp, and no approval required. */
  lemma EmptyTableDefaults()
    ensures ThumbnailsOf(map[]) == Ok(Thumbnails(70, "9:14", 225, 350, "webp", 0))
  {
    QualityDefault();
    WidthDefault();
    HeightDefault();
    ApprovalDefault();
  }

  /** A quality stored as decimal text wins over its default, and the other
      fields are untouched by it. */
  lemma StoredQualityWins(settings: map<String, String>, q: int)
    requires ThumbnailsOf(settings).Ok?
    ensures ThumbnailsOf(settings["thumb_quality" := Json.IntText(q)])
            == Ok(ThumbnailsOf(settings).value.(quality := q))
  {
    var s2 := settings["thumb_quality" := Json.IntText(q)];
    PyIntOfText(q);
    OtherKeysKept(settings, "thumb_quality", Json.IntText(q), "thumb_ratio", "9:14");
    OtherKeysKept(settings, "thumb_quality", Json.IntText(q), "thumb_width", "225");
    OtherKeysKept(settings, "thumb_quality", Json.IntText(q), "thumb_height", "350");
    OtherKeysKept(settings, "thumb_quality", Json.IntText(q), "thumb_format", "webp");
    OtherKeysKept(settings, "thumb_quality", Json.IntText(q), "require_approval", "0");
    assert ReadInt(Json.IntText(q)) == Ok(q);
  }

  lemma OtherKeysKept(settings: map<String, String>, key: String, value: String, other: String, default: String)
    requires other != key
    ensures Get(settings[key := value], other, default) == Get(settings, other, default)
  {
  }

  /** A quality that is not an integer makes the reader raise with that
      text, whatever the other settings hold. */
  lemma BadQualityRaises(settings: map<String, String>)
    requires "thumb_quality" in settings && settings["thumb_quality"] == "high"
    ensures ThumbnailsOf(settings) == Err("high")
  {
    assert !IsSpace("high"[0]) && !IsSpace("high"[3]);
    StripOfStripped("high");
    assert !DecimalBody("high");
  }

  // ---------------------------------------------------------------------------
  // The table
  // ---------------------------------------------------------------------------

  class SettingsTable {
    var rows: map<String, String>

    constructor()
      ensures rows == map[]
    {
      rows := map[];
    }

    /** `get_setting`: the stored value, None for a missing key. */
    method GetSetting(key: String) returns (r: Option<String>)
      ensures r.None? <==> key !in rows
      ensures r.Some? ==> r.value == rows[key]
    {
      r := if key in rows then Some(rows[key]) else None;
    }

    /** `set_setting`: INSERT OR REPLACE, so a later `get_setting(key)` gives
        `value` and every other key keeps its value. */
    method SetSetting(key: String, value: String) returns (ok: bool)
      modifies this
      ensures ok
      ensures rows == old(rows)[key := value]
      ensures key in rows && rows[key] == value
      ensures forall k :: k != key ==> (k in rows <==> k in old(rows)) && (k in rows ==> rows[k] == old(rows)[k])
    {
      rows := rows[key := value];
      ok := true;
    }

    /** `get_all_settings`: every stored key with its value. */
    method GetAllSettings() returns (all: map<String, String>)
      ensures all == rows
    {
      all := rows;
    }

    /** `get_thumbnail_settings`. */
    method GetThumbnailSettings() returns (r: Result<Thumbnails, String>)
      ensures r == ThumbnailsOf(rows)
    {
      r := ThumbnailsOf(rows);
    }
  }
}
