/**
 JSON values and `JSON.stringify` (compact form). Numbers are integers;
 floating point is not modelled. Object members keep their insertion order.
 A member whose value is `undefined` is never stored: the model omits it,
 which is what serialisation does with it.
 */
module Json {

  import opened Wrappers
  import opened Strings

  datatype Json =
    | JNull
    | JBool(b: bool)
    | JNum(n: int)
    | JStr(s: string)
    | JArr(items: seq<Json>)
    | JObj(members: seq<(string, Json)>)

  /** JavaScript truthiness of a JSON value (objects and arrays are truthy). */
  predicate Truthy(j: Json)
  {
    match j
    case JNull => false
    case JBool(b) => b
    case JNum(n) => n != 0
    case JStr(s) => |s| > 0
    case _ => true
  }

  /** `JSON.stringify(j)` with no indentation. */
  function Stringify(j: Json): string
    decreases j, 1
  {
    match j
    case JNull => "null"
    case JBool(b) => if b then "true" else "false"
    case JNum(n) => IntToString(n)
    case JStr(s) => Quote(s)
    case JArr(items) => "[" + StringifyItems(j, 0) + "]"
    case JObj(members) => "{" + StringifyMembers(j, 0) + "}"
  }

  function StringifyItems(j: Json, i: nat): string
    requires j.JArr?
    decreases j, 0, |j.items| - i
  {
    if i >= |j.items| then ""
    else (if i > 0 then "," else "") + Stringify(j.items[i]) + StringifyItems(j, i + 1)
  }

  function StringifyMembers(j: Json, i: nat): string
    requires j.JObj?
    decreases j, 0, |j.members| - i
  {
    if i >= |j.members| then ""
    else
      var m := j.members[i];
      assert m in j.members;
      (if i > 0 then "," else "") + Quote(m.0) + ":" + Stringify(m.1) + StringifyMembers(j, i + 1)
  }

  /** A JSON string literal: the escaped characters between double quotes. */
  function Quote(s: string): (r: string)
    ensures |r| >= 2 && r[0] == '"' && r[|r| - 1] == '"'
  {
    "\"" + Escape(s) + "\""
  }

  function Escape(s: string): string
  {
    if |s| == 0 then "" else EscapeChar(s[0]) + Escape(s[1..])
  }

  const Hex: string := "0123456789abcdef"

  /** How `JSON.stringify` writes one character of a string. */
  function EscapeChar(c: char): (r: string)
    ensures |r| > 0
  {
    if c == '"' then "\\\""
    else if c == '\\' then "\\\\"
    else if c == '\U{8}' then "\\b"
    else if c == '\U{C}' then "\\f"
    else if c == '\n' then "\\n"
    else if c == '\r' then "\\r"
    else if c == '\t' then "\\t"
    else if c < ' ' then "\\u00" + [Hex[(c as int) / 16], Hex[(c as int) % 16]]
    else [c]
  }

  function HexValue(c: char): Option<nat>
  {
    if '0' <= c <= '9' then Some(c as int - '0' as int)
    else if 'a' <= c <= 'f' then Some(c as int - 'a' as int + 10)
    else if 'A' <= c <= 'F' then Some(c as int - 'A' as int + 10)
    else None
  }

  /** Value of four hexadecimal digits, as in a `\uXXXX` escape. */
  function Hex4(t: string): (r: Option<nat>)
    requires |t| == 4
    ensures r.Some? ==> r.value < 0x10000
  {
    match (HexValue(t[0]), HexValue(t[1]), HexValue(t[2]), HexValue(t[3]))
    case (Some(a), Some(b), Some(c), Some(d)) =>
      if a < 16 && b < 16 && c < 16 && d < 16 then Some(((a * 16 + b) * 16 + c) * 16 + d) else None
    case _ => None
  }

  /**
   Decodes the body of a JSON string literal as `JSON.parse` does, except
   that a `\uXXXX` escape of a surrogate half (`D800` to `DFFF`) is
   rejected: Dafny's `char` holds no surrogate halves, and the model does
   not join an escaped surrogate pair into one character.
   */
  function Unescape(t: string): Option<string>
    decreases |t|
  {
    if |t| == 0 then Some("")
    else if t[0] == '"' || t[0] < ' ' then None
    else if t[0] != '\\' then
      match Unescape(t[1..])
      case Some(rest) => Some([t[0]] + rest)
      case None => None
    else if |t| < 2 then None
    else
      var e := t[1];
      var simple :=
        if e == '"' then Some('"') else if e == '\\' then Some('\\') else if e == '/' then Some('/')
        else if e == 'b' then Some('\U{8}') else if e == 'f' then Some('\U{C}') else if e == 'n' then Some('\n')
        else if e == 'r' then Some('\r') else if e == 't' then Some('\t') else None;
      if simple.Some? then
        match Unescape(t[2..])
        case Some(rest) => Some([simple.value] + rest)
        case None => None
      else if e == 'u' && |t| >= 6 then
        match Hex4(t[2..6])
        case Some(code) =>
          if code < 0xD800 || 0xE000 <= code then
            match Unescape(t[6..])
            case Some(rest) => Some([code as char] + rest)
            case None => None
          else None
        case None => None
      else None
  }

  /** `JSON.parse` of a string literal. */
  function ParseStringLiteral(t: string): Option<string>
  {
    if |t| >= 2 && t[0] == '"' && t[|t| - 1] == '"' then Unescape(t[1..|t| - 1]) else None
  }

  lemma EscapeCharDecodes(c: char, rest: string)
    ensures Unescape(EscapeChar(c) + rest) ==
      (match Unescape(rest) case Some(r) => Some([c] + r) case None => None)
  {
    var e := EscapeChar(c) + rest;
    if c < ' ' && c != '\U{8}' && c != '\U{C}' && c != '\n' && c != '\r' && c != '\t' {
      var hi, lo := (c as int) / 16, (c as int) % 16;
      assert hi < 2;
      assert e[2..6] == ['0', '0', Hex[hi], Hex[lo]];
      assert HexValue(Hex[hi]) == Some(hi);
      assert HexValue(Hex[lo]) == Some(lo);
      assert e[6..] == rest;
    } else if c == '"' || c == '\\' || c == '\U{8}' || c == '\U{C}' || c == '\n' || c == '\r' || c == '\t' {
      assert e[2..] == rest;
    } else {
      assert e[1..] == rest;
    }
  }

  /** Parsing what stringify wrote for a string gives the string back. */
  lemma {:induction false} UnescapeEscape(s: string)
    ensures Unescape(Escape(s)) == Some(s)
  {
    if |s| > 0 {
      UnescapeEscape(s[1..]);
      EscapeCharDecodes(s[0], Escape(s[1..]));
      assert Escape(s) == EscapeChar(s[0]) + Escape(s[1..]);
      assert [s[0]] + s[1..] == s;
    }
  }

  /** `JSON.parse(JSON.stringify(s)) === s` for every string. */
  lemma StringLiteralRoundTrip(s: string)
    ensures ParseStringLiteral(Quote(s)) == Some(s)
  {
    var q := Quote(s);
    assert q[1..|q| - 1] == Escape(s);
    UnescapeEscape(s);
  }
}
