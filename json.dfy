/** JSON values and the text `json.dumps` writes for them with its default
    separators. With `ensure_ascii` (the default) every character outside
    printable ASCII is written as a `\u` escape; without it only the control
    characters are. */
module Json {
  import opened Text

  datatype Json =
    | JNull
    | JBool(b: bool)
    | JInt(i: int)
    | JStr(s: String)
    | JArr(items: seq<Json>)
    | JObj(fields: seq<Field>)

  /** One `"key": value` member of an object. */
  datatype Field = Field(key: String, value: Json)

  /** Python's truth value of the decoded object: None, False, 0, "" and empty containers are false. */
  predicate Truthy(v: Json) {
    match v
    case JNull => false
    case JBool(b) => b
    case JInt(i) => i != 0
    case JStr(s) => s != []
    case JArr(items) => items != []
    case JObj(fields) => fields != []
  }

  /** Every character is printable ASCII, from the space to `~`. */
  predicate Printable(s: String) {
    forall i :: 0 <= i < |s| ==> 0x20 <= s[i] as int <= 0x7E
  }

  function HexDigit(n: nat): (c: char)
    requires n < 16
    ensures '0' <= c <= '9' || 'a' <= c <= 'f'
  {
    if n < 10 then ('0' as int + n) as char else ('a' as int + n - 10) as char
  }

  /** `\uXXXX` with four lower-case hex digits, for one UTF-16 code unit. */
  function UnitEscape(n: nat): (r: String)
    requires n < 0x10000
    ensures |r| == 6 && r[..2] == "\\u"
    ensures Printable(r)
  {
    "\\u" + [HexDigit(n / 4096), HexDigit(n / 256 % 16), HexDigit(n / 16 % 16), HexDigit(n % 16)]
  }

  /** The escaped form of one character inside a JSON string: the two-letter
      escapes, then a `\u` escape of any other control character and, with
      `ensureAscii`, of any character past `~` (as a UTF-16 surrogate pair
      above U+FFFF); every other character as it is. */
  function EscapeChar(c: char, ensureAscii: bool): (r: String)
    ensures r != []
    ensures (c as int) < 0x20 || (ensureAscii && (c as int) > 0x7E) ==> r[0] == '\\'
    ensures !ensureAscii && (c as int) > 0x7E ==> r == [c]
    ensures ensureAscii ==> Printable(r)
  {
    if c == '"' then "\\\""
    else if c == '\\' then "\\\\"
    else if c == '\n' then "\\n"
    else if c == '\r' then "\\r"
    else if c == '\t' then "\\t"
    else if c == '\U{08}' then "\\b"
    else if c == '\U{0C}' then "\\f"
    else if (c as int) < 0x20 then UnitEscape(c as int)
    else if !ensureAscii || (c as int) <= 0x7E then [c]
    else if (c as int) < 0x10000 then UnitEscape(c as int)
    else
      var v := c as int - 0x10000;
      UnitEscape(0xD800 + v / 1024) + UnitEscape(0xDC00 + v % 1024)
  }

  /** With `ensureAscii` the escaped string holds printable ASCII only. */
  function EscapeString(s: String, ensureAscii: bool): (r: String)
    ensures ensureAscii ==> Printable(r)
    decreases |s|
  {
    if s == [] then [] else EscapeChar(s[0], ensureAscii) + EscapeString(s[1..], ensureAscii)
  }

  function Quote(s: String, ensureAscii: bool): (r: String)
    ensures |r| >= 2 && r[0] == '"' && r[|r| - 1] == '"'
    ensures ensureAscii ==> Printable(r)
  {
    "\"" + EscapeString(s, ensureAscii) + "\""
  }

  function NatText(n: nat): (r: String)
    ensures r != []
    ensures forall i :: 0 <= i < |r| ==> IsDigit(r[i])
  {
    if n < 10 then [('0' as int + n) as char] else NatText(n / 10) + [('0' as int + n % 10) as char]
  }

  function IntText(i: int): (r: String)
    ensures Printable(r)
  {
    if i < 0 then "-" + NatText(-i) else NatText(i)
  }

  /** `json.dumps(v, ensure_ascii=ensureAscii)`: with `ensureAscii`, printable
      ASCII text whatever the strings hold. */
  function Dumps(v: Json, ensureAscii: bool): (r: String)
    ensures r != []
    ensures ensureAscii ==> Printable(r)
    ensures v.JStr? ==> r[0] == '"'
    ensures v.JArr? ==> r[0] == '['
    decreases v, 1
  {
    match v
    case JNull => "null"
    case JBool(b) => if b then "true" else "false"
    case JInt(i) => IntText(i)
    case JStr(s) => Quote(s, ensureAscii)
    case JArr(items) => "[" + DumpsItems(items, ensureAscii) + "]"
    case JObj(fields) => "{" + DumpsFields(fields, ensureAscii) + "}"
  }

  function DumpsItems(items: seq<Json>, ensureAscii: bool): (r: String)
    ensures ensureAscii ==> Printable(r)
    decreases items, 0
  {
    if items == [] then []
    else if |items| == 1 then Dumps(items[0], ensureAscii)
    else Dumps(items[0], ensureAscii) + ", " + DumpsItems(items[1..], ensureAscii)
  }

  function DumpsFields(fields: seq<Field>, ensureAscii: bool): (r: String)
    ensures ensureAscii ==> Printable(r)
    decreases fields, 0
  {
    if fields == [] then []
    else
      var f := fields[0];
      var one := Quote(f.key, ensureAscii) + ": " + Dumps(f.value, ensureAscii);
      if |fields| == 1 then one else one + ", " + DumpsFields(fields[1..], ensureAscii)
  }
}
