/**
 * JSON scalars as Gson's default `toJson` writes them (section 7 of RFC 8259
 * for strings, with Gson's HTML-safe escaping of `< > & = '`), and a decoder
 * for the same scalars that accepts every escape section 7 of RFC 8259 allows.
 */
module Json {
  import opened Wrappers
  import opened JavaLang
  import Decimal

  /** A lower-case hexadecimal digit, as `String.format("%04x")` prints it. */
  function HexDigit(d: int): char
    requires 0 <= d < 16
  {
    if d < 10 then ('0' as int + d) as char else ('a' as int + d - 10) as char
  }

  function HexValue(c: char): Option<int>
  {
    if '0' <= c <= '9' then Some(c as int - '0' as int)
    else if 'a' <= c <= 'f' then Some(c as int - 'a' as int + 10)
    else if 'A' <= c <= 'F' then Some(c as int - 'A' as int + 10)
    else None
  }

  /** Four lower-case hex digits of a UTF-16 code unit. */
  function Hex4(n: int): (s: string)
    requires 0 <= n < 0x1_0000
    ensures |s| == 4
  {
    var low12 := n % 0x1000;
    var low8 := low12 % 0x100;
    [HexDigit(n / 0x1000), HexDigit(low12 / 0x100), HexDigit(low8 / 16), HexDigit(low8 % 16)]
  }

  function ParseHex4(s: string): Option<int>
    requires |s| == 4
  {
    match (HexValue(s[0]), HexValue(s[1]), HexValue(s[2]), HexValue(s[3]))
    case (Some(a), Some(b), Some(c), Some(d)) => Some(a * 0x1000 + b * 0x100 + c * 16 + d)
    case _ => None
  }

  lemma HexValueOfDigit(d: int)
    requires 0 <= d < 16
    ensures HexValue(HexDigit(d)) == Some(d)
  {
  }

  lemma ParseHex4OfHex4(n: int)
    requires 0 <= n < 0x1_0000
    ensures ParseHex4(Hex4(n)) == Some(n)
  {
    var low12 := n % 0x1000;
    var low8 := low12 % 0x100;
    HexValueOfDigit(n / 0x1000);
    HexValueOfDigit(low12 / 0x100);
    HexValueOfDigit(low8 / 16);
    HexValueOfDigit(low8 % 16);
    assert n == 0x1000 * (n / 0x1000) + low12;
    assert low12 == 0x100 * (low12 / 0x100) + low8;
    assert low8 == 16 * (low8 / 16) + low8 % 16;
  }

  /** The characters Gson's default (HTML-safe) writer escapes as `\uXXXX` although JSON does not require it. */
  predicate IsHtmlSensitive(c: char)
  {
    c == '<' || c == '>' || c == '&' || c == '=' || c == '\''
  }

  /** Gson's replacement for one character of a string value. */
  function EscapeChar(c: char): (e: string)
    ensures |e| >= 1
    ensures forall i :: 0 <= i < |e| ==> !IsHtmlSensitive(e[i]) && (e[i] as int) >= 0x20
    ensures e != [c] ==> e[0] == '\\'
  {
    var n := c as int;
    if c == '"' then "\\\""
    else if c == '\\' then "\\\\"
    else if n == 0x09 then "\\t"
    else if n == 0x08 then "\\b"
    else if n == 0x0A then "\\n"
    else if n == 0x0D then "\\r"
    else if n == 0x0C then "\\f"
    else if n < 0x20 || IsHtmlSensitive(c) || n == 0x2028 || n == 0x2029 then "\\u" + Hex4(n)
    else [c]
  }

  /** The escaped body of a string value. */
  function EscapeAll(s: string): (r: string)
    ensures |r| >= |s|
    ensures forall i :: 0 <= i < |r| ==> !IsHtmlSensitive(r[i]) && (r[i] as int) >= 0x20
  {
    if s == [] then [] else EscapeChar(s[0]) + EscapeAll(s[1..])
  }

  /** `Gson.toJson` of a `String` field's value; `null` becomes the literal `null`. */
  function StringToJson(s: Option<string>): string
  {
    match s
    case None => "null"
    case Some(v) => "\"" + EscapeAll(v) + "\""
  }

  /** `Gson.toJson` of a `Long` field's value: plain decimal, or the literal `null`. */
  function LongToJson(v: Option<Long>): string
  {
    match v
    case None => "null"
    case Some(x) => Decimal.DecimalString(x)
  }

  /** The one-character escapes of section 7 of RFC 8259. */
  function SimpleEscape(e: char): Option<char>
  {
    if e == '"' then Some('"')
    else if e == '\\' then Some('\\')
    else if e == '/' then Some('/')
    else if e == 'b' then Some(0x08 as char)
    else if e == 'f' then Some(0x0C as char)
    else if e == 'n' then Some(0x0A as char)
    else if e == 'r' then Some(0x0D as char)
    else if e == 't' then Some(0x09 as char)
    else None
  }

  function Prepend(c: char, rest: Option<string>): Option<string>
  {
    match rest
    case None => None
    case Some(r) => Some([c] + r)
  }

  /**
   * Decodes the characters between the quotes of a JSON string. Escapes of
   * lone surrogates have no `char` here and are rejected.
   */
  function ParseChars(s: string): Option<string>
    decreases |s|
  {
    if s == [] then Some([])
    else if s[0] == '\\' then
      if |s| < 2 then None
      else if s[1] == 'u' then
        if |s| < 6 then None
        else
          match ParseHex4(s[2..6])
          case None => None
          case Some(n) =>
            if 0xD800 <= n < 0xE000 then None else Prepend(n as char, ParseChars(s[6..]))
      else
        match SimpleEscape(s[1])
        case None => None
        case Some(c) => Prepend(c, ParseChars(s[2..]))
    else if s[0] == '"' || (s[0] as int) < 0x20 then None
    else Prepend(s[0], ParseChars(s[1..]))
  }

  lemma ParseEscapeChar(c: char, rest: string)
    ensures ParseChars(EscapeChar(c) + rest) == Prepend(c, ParseChars(rest))
  {
    var n := c as int;
    var s := EscapeChar(c) + rest;
    if EscapeChar(c) == [c] {
      assert s[1..] == rest;
    } else if |EscapeChar(c)| == 2 {
      assert s[2..] == rest;
    } else {
      assert EscapeChar(c) == "\\u" + Hex4(n);
      assert s[2..6] == Hex4(n);
      assert s[6..] == rest;
      ParseHex4OfHex4(n);
    }
  }

  lemma {:induction false} ParseEscapeAll(s: string)
    ensures ParseChars(EscapeAll(s)) == Some(s)
    decreases |s|
  {
    if s != [] {
      ParseEscapeChar(s[0], EscapeAll(s[1..]));
      ParseEscapeAll(s[1..]);
      assert [s[0]] + s[1..] == s;
    }
  }

  /** Reads a JSON string scalar or the literal `null`; `None` when malformed. */
  function StringFromJson(t: string): Option<Option<string>>
  {
    if t == "null" then Some(None)
    else if |t| >= 2 && t[0] == '"' && t[|t| - 1] == '"' then
      match ParseChars(t[1..|t| - 1])
      case None => None
      case Some(v) => Some(Some(v))
    else None
  }

  /** Reads a JSON integer within `Long` range or the literal `null`; `None` otherwise. */
  function LongFromJson(t: string): Option<Option<Long>>
  {
    if t == "null" then Some(None)
    else
      match Decimal.ParseDecimal(t)
      case None => None
      case Some(x) =>
        if -0x8000_0000_0000_0000 <= x < 0x8000_0000_0000_0000 then Some(Some(x)) else None
  }

  /** Decoding undoes Gson's encoding of a nullable string, whatever characters it holds. */
  lemma StringRoundTrip(s: Option<string>)
    ensures StringFromJson(StringToJson(s)) == Some(s)
  {
    if s.Some? {
      var t := StringToJson(s);
      assert t[0] == '"' && "null"[0] == 'n';
      assert t[1..|t| - 1] == EscapeAll(s.value);
      ParseEscapeAll(s.value);
    }
  }

  /** Decoding undoes Gson's encoding of a nullable `Long`. */
  lemma LongRoundTrip(v: Option<Long>)
    ensures LongFromJson(LongToJson(v)) == Some(v)
  {
    if v.Some? {
      var t := LongToJson(v);
      assert t[0] != 'n';
      assert "null"[0] == 'n';
      Decimal.DecimalRoundTrip(v.value);
    }
  }

  /** Gson's output for a string never contains a raw HTML-sensitive character. */
  lemma StringToJsonIsHtmlSafe(s: Option<string>)
    ensures forall i :: 0 <= i < |StringToJson(s)| ==> !IsHtmlSensitive(StringToJson(s)[i])
  {
  }
}
