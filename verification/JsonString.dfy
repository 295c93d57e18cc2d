/** JSON strings (section 7 of RFC 8259) as `serde_json` writes and reads them:
    the writer escapes quotes, backslashes and controls and copies every other
    byte; the reader accepts every escape, including surrogate pairs. */
module JsonString {
  import opened Text

  // ----- writer

  function HexDigit(d: nat): char
    requires d < 16
  {
    if d < 10 then '0' + d as char else 'a' + (d - 10) as char
  }

  function EscapeChar(c: char): string {
    if c == '"' then "\\\""
    else if c == '\\' then "\\\\"
    else if c as nat >= 32 then [c]
    else if c as nat == 8 then "\\b"
    else if c as nat == 9 then "\\t"
    else if c as nat == 10 then "\\n"
    else if c as nat == 12 then "\\f"
    else if c as nat == 13 then "\\r"
    else ['\\', 'u', '0', '0', HexDigit(c as nat / 16), HexDigit(c as nat % 16)]
  }

  function Escape(s: string): string {
    if s == "" then "" else EscapeChar(s[0]) + Escape(s[1..])
  }

  /** `serde_json::to_string`. */
  function Encode(s: string): string {
    "\"" + Escape(s) + "\""
  }

  // ----- reader

  function HexValue(c: char): Option<nat> {
    if '0' <= c <= '9' then Some(c as nat - '0' as nat)
    else if 'a' <= c <= 'f' then Some(c as nat - 'a' as nat + 10)
    else if 'A' <= c <= 'F' then Some(c as nat - 'A' as nat + 10)
    else None
  }

  function Hex4(s: string): Option<nat>
    requires |s| >= 4
  {
    var a, b, c, d := HexValue(s[0]), HexValue(s[1]), HexValue(s[2]), HexValue(s[3]);
    if a.None? || b.None? || c.None? || d.None? then None
    else Some(((a.value * 16 + b.value) * 16 + c.value) * 16 + d.value)
  }

  function Byte(n: nat): char
    requires n < 256
  {
    n as char
  }

  /** The UTF-8 bytes of a scalar value. */
  function Utf8(code: nat): string
    requires code < 0x11_0000
  {
    if code < 0x80 then [Byte(code)]
    else if code < 0x800 then [Byte(0xC0 + code / 64), Byte(0x80 + code % 64)]
    else if code < 0x1_0000 then
      [Byte(0xE0 + code / 64 / 64), Byte(0x80 + code / 64 % 64), Byte(0x80 + code % 64)]
    else
      [Byte(0xF0 + code / 64 / 64 / 64), Byte(0x80 + code / 64 / 64 % 64),
       Byte(0x80 + code / 64 % 64), Byte(0x80 + code % 64)]
  }

  /** Text after `\u`: four hexadecimal digits, or two such escapes when the
      first is a leading surrogate. */
  function ParseUnicode(s: string): (r: Option<(string, string)>)
    ensures r.Some? ==> |r.value.1| < |s|
  {
    if |s| < 4 then None
    else
      match Hex4(s)
      case None => None
      case Some(high) =>
        if 0xDC00 <= high <= 0xDFFF then None
        else if 0xD800 <= high <= 0xDBFF then
          if |s| < 10 || s[4] != '\\' || s[5] != 'u' then None
          else
            match Hex4(s[6..])
            case None => None
            case Some(low) =>
              if 0xDC00 <= low <= 0xDFFF
              then Some((Utf8(0x1_0000 + (high - 0xD800) * 1024 + (low - 0xDC00)), s[10..]))
              else None
        else if high < 0x1_0000 then Some((Utf8(high), s[4..]))
        else None
  }

  /** One character of a string body, given that `s` does not start with a quote. */
  function ParseUnit(s: string): (r: Option<(string, string)>)
    requires s != ""
    ensures r.Some? ==> |r.value.1| < |s|
  {
    if s[0] as nat < 32 then None
    else if s[0] != '\\' then Some(([s[0]], s[1..]))
    else if |s| < 2 then None
    else
      var rest := s[2..];
      match s[1]
      case '"' => Some(("\"", rest))
      case '\\' => Some(("\\", rest))
      case '/' => Some(("/", rest))
      case 'b' => Some(([8 as char], rest))
      case 'f' => Some(([12 as char], rest))
      case 'n' => Some(("\n", rest))
      case 'r' => Some(("\r", rest))
      case 't' => Some(("\t", rest))
      case 'u' => ParseUnicode(rest)
      case _ => None
  }

  /** A string body up to and including the closing quote. */
  function ParseBody(s: string): (r: Option<(string, string)>)
    ensures r.Some? ==> |r.value.1| < |s|
    decreases |s|
  {
    if s == "" then None
    else if s[0] == '"' then Some(("", s[1..]))
    else
      match ParseUnit(s)
      case None => None
      case Some((unit, rest)) =>
        match ParseBody(rest)
        case None => None
        case Some((body, after)) => Some((unit + body, after))
  }

  predicate IsWhitespace(c: char) {
    c == ' ' || c == '\t' || c == '\n' || c == '\r'
  }

  function SkipWhitespace(s: string): (r: string)
    ensures |r| <= |s| && (r != "" ==> !IsWhitespace(r[0]))
  {
    if s != "" && IsWhitespace(s[0]) then SkipWhitespace(s[1..]) else s
  }

  /** First value of a `StreamDeserializer` over strings, with the text after it. */
  function ParseFirst(s: string): (r: Option<(string, string)>)
    ensures r.Some? ==> |r.value.1| < |s|
  {
    var t := SkipWhitespace(s);
    if t == "" || t[0] != '"' then None else ParseBody(t[1..])
  }

  /** `serde_json::from_str::<String>`. */
  function Decode(s: string): Option<string> {
    match ParseFirst(s)
    case None => None
    case Some((value, rest)) => if SkipWhitespace(rest) == "" then Some(value) else None
  }

  // ----- the two agree

  lemma HexDigits(c: char)
    requires c as nat < 32
    ensures Hex4(['0', '0', HexDigit(c as nat / 16), HexDigit(c as nat % 16)]) == Some(c as nat)
  {
  }

  lemma UnitRoundTrip(c: char, rest: string)
    ensures EscapeChar(c) != "" && EscapeChar(c)[0] != '"'
    ensures ParseUnit(EscapeChar(c) + rest) == Some(([c], rest))
  {
    var s := EscapeChar(c) + rest;
    if |EscapeChar(c)| == 1 {
      assert s[1..] == rest;
    } else if |EscapeChar(c)| == 2 {
      assert s[2..] == rest;
    } else {
      HexDigits(c);
      assert s[2..] == ['0', '0', HexDigit(c as nat / 16), HexDigit(c as nat % 16)] + rest;
      assert s[2..][4..] == rest;
    }
  }

  lemma {:induction false} BodyRoundTrip(s: string, rest: string)
    ensures ParseBody(Escape(s) + "\"" + rest) == Some((s, rest))
  {
    if s == "" {
      assert Escape(s) + "\"" + rest == "\"" + rest;
    } else {
      var more := Escape(s[1..]) + "\"" + rest;
      BodyRoundTrip(s[1..], rest);
      UnitRoundTrip(s[0], more);
      EscapeHead(s, rest);
      assert [s[0]] + s[1..] == s;
    }
  }

  lemma EscapeHead(s: string, rest: string)
    requires s != ""
    ensures Escape(s) + "\"" + rest == EscapeChar(s[0]) + (Escape(s[1..]) + "\"" + rest)
  {
  }

  /** A written string is self-delimiting: reading stops at its closing quote. */
  lemma FirstRoundTrip(s: string, rest: string)
    ensures ParseFirst(Encode(s) + rest) == Some((s, rest))
  {
    BodyRoundTrip(s, rest);
    ConcatAssoc("\"", Escape(s) + "\"", rest);
    ConcatAssoc("\"", Escape(s), "\"");
    OpensString(Escape(s) + "\"" + rest);
  }

  lemma OpensString(body: string)
    ensures ParseFirst("\"" + body) == ParseBody(body)
  {
    assert ("\"" + body)[1..] == body;
  }

  lemma DecodeRoundTrip(s: string)
    ensures Decode(Encode(s)) == Some(s)
  {
    FirstRoundTrip(s, "");
    assert Encode(s) + "" == Encode(s);
  }

  lemma EscapeCharNoLf(c: char)
    ensures NoLf(EscapeChar(c))
  {
  }

  lemma {:induction false} EscapeNoLf(s: string)
    ensures NoLf(Escape(s))
  {
    if s != "" {
      EscapeCharNoLf(s[0]);
      EscapeNoLf(s[1..]);
    }
  }

  /** A written string fits on one row. */
  lemma EncodeNoLf(s: string)
    ensures NoLf(Encode(s)) && Encode(s) != "" && Encode(s)[0] == '"'
  {
    EscapeNoLf(s);
  }

  /** The reader takes the character alone for itself. */
  predicate ReadsAlone(c: char) {
    c != '"' && ParseUnit([c]) == Some(([c], ""))
  }

  /** A character is copied exactly where the reader takes it for itself; an
      escape of two characters is used wherever there is one, and no
      escape has capitals. */
  lemma EscapedIfNeeded(c: char)
    requires c as nat < 256
    ensures EscapeChar(c) == [c] <==> ReadsAlone(c)
    ensures !ReadsAlone(c) ==>
              (|EscapeChar(c)| == 2 <==> exists e: char :: ParseUnit(['\\', e]) == Some(([c], "")))
    ensures forall k :: 0 <= k < |EscapeChar(c)| && EscapeChar(c) != [c] ==> !('A' <= EscapeChar(c)[k] <= 'Z')
  {
    if !ReadsAlone(c) && |EscapeChar(c)| == 2 {
      assert EscapeChar(c) == ['\\', EscapeChar(c)[1]];
      assert EscapeChar(c)[2..] == "";
    }
  }

  // ----- scalar values by their escapes

  function FourDigits(n: nat): (digits: string)
    requires n < 0x1_0000
    ensures |digits| == 4
  {
    [HexDigit(n / 16 / 16 / 16), HexDigit(n / 16 / 16 % 16), HexDigit(n / 16 % 16), HexDigit(n % 16)]
  }

  predicate IsScalar(code: nat) {
    code < 0x11_0000 && !(0xD800 <= code <= 0xDFFF)
  }

  /** The digits after `\\u`: one UTF-16 unit, or a surrogate pair. */
  function Units(code: nat): string
    requires IsScalar(code)
  {
    if code < 0x1_0000 then FourDigits(code)
    else FourDigits(0xD800 + (code - 0x1_0000) / 1024) + "\\u" + FourDigits(0xDC00 + (code - 0x1_0000) % 1024)
  }

  lemma DigitReads(d: nat)
    requires d < 16
    ensures HexValue(HexDigit(d)) == Some(d)
  {
  }

  lemma DigitsRead(s: string, a: nat, b: nat, c: nat, d: nat)
    requires |s| >= 4 && HexValue(s[0]) == Some(a) && HexValue(s[1]) == Some(b)
    requires HexValue(s[2]) == Some(c) && HexValue(s[3]) == Some(d)
    ensures Hex4(s) == Some(((a * 16 + b) * 16 + c) * 16 + d)
  {
  }

  lemma HexReads(n: nat, rest: string)
    requires n < 0x1_0000
    ensures Hex4(FourDigits(n) + rest) == Some(n)
  {
    DigitReads(n / 16 / 16 / 16);
    DigitReads(n / 16 / 16 % 16);
    DigitReads(n / 16 % 16);
    DigitReads(n % 16);
    DigitsRead(FourDigits(n) + rest, n / 16 / 16 / 16, n / 16 / 16 % 16, n / 16 % 16, n % 16);
  }

  /** Every scalar value is read from its escape. */
  lemma EscapedScalarReads(code: nat, rest: string)
    requires IsScalar(code)
    ensures ParseUnicode(Units(code) + rest) == Some((Utf8(code), rest))
  {
    if code < 0x1_0000 {
      UnitReads(code, rest);
    } else {
      var high, low := 0xD800 + (code - 0x1_0000) / 1024, 0xDC00 + (code - 0x1_0000) % 1024;
      assert code == 0x1_0000 + (high - 0xD800) * 1024 + (low - 0xDC00);
      SurrogatesRead(high, low, rest);
      PairIs(code, high, low, rest);
    }
  }

  lemma UnitReads(code: nat, rest: string)
    requires IsScalar(code) && code < 0x1_0000
    ensures ParseUnicode(FourDigits(code) + rest) == Some((Utf8(code), rest))
  {
    HexReads(code, rest);
    assert (FourDigits(code) + rest)[4..] == rest;
  }

  lemma PairIs(code: nat, high: nat, low: nat, rest: string)
    requires IsScalar(code) && code >= 0x1_0000
    requires high == 0xD800 + (code - 0x1_0000) / 1024 && low == 0xDC00 + (code - 0x1_0000) % 1024
    ensures Units(code) + rest == FourDigits(high) + "\\u" + (FourDigits(low) + rest)
  {
    ConcatAssoc(FourDigits(high) + "\\u", FourDigits(low), rest);
  }

  lemma SurrogatesRead(high: nat, low: nat, rest: string)
    requires 0xD800 <= high <= 0xDBFF && 0xDC00 <= low <= 0xDFFF
    ensures ParseUnicode(FourDigits(high) + "\\u" + (FourDigits(low) + rest))
            == Some((Utf8(0x1_0000 + (high - 0xD800) * 1024 + (low - 0xDC00)), rest))
  {
    var tail := FourDigits(low) + rest;
    HexReads(low, rest);
    HexReads(high, "\\u" + tail);
    assert tail[4..] == rest;
    ConcatAssoc(FourDigits(high), "\\u", tail);
    PairReads(FourDigits(high) + ("\\u" + tail), high, low, tail);
  }

  lemma PairReads(s: string, high: nat, low: nat, tail: string)
    requires |s| == 6 + |tail| && |tail| >= 4 && s[4..] == "\\u" + tail
    requires Hex4(s) == Some(high) && 0xD800 <= high <= 0xDBFF
    requires Hex4(tail) == Some(low) && 0xDC00 <= low <= 0xDFFF
    ensures ParseUnicode(s) == Some((Utf8(0x1_0000 + (high - 0xD800) * 1024 + (low - 0xDC00)), tail[4..]))
  {
    assert s[4] == s[4..][0] && s[5] == s[4..][1];
    assert s[6..] == s[4..][2..] == tail;
    assert s[10..] == tail[4..];
  }

  /** The scalar value of UTF-8 bytes: the bits of the first byte above those of
      the continuation bytes. */
  function FromUtf8(bytes: string): nat {
    if bytes == "" then 0 else FromUtf8(bytes[..|bytes| - 1]) * 64 + Bits(bytes[|bytes| - 1] as nat)
  }

  function Bits(byte: nat): nat {
    if byte < 0x80 then byte
    else if byte < 0xC0 then byte - 0x80
    else if byte < 0xE0 then byte - 0xC0
    else if byte < 0xF0 then byte - 0xE0
    else byte - 0xF0
  }

  lemma FromUtf8Of(a: char, b: char, c: char, d: char)
    ensures FromUtf8([a]) == Bits(a as nat)
    ensures FromUtf8([a, b]) == Bits(a as nat) * 64 + Bits(b as nat)
    ensures FromUtf8([a, b, c]) == (Bits(a as nat) * 64 + Bits(b as nat)) * 64 + Bits(c as nat)
    ensures FromUtf8([a, b, c, d])
            == ((Bits(a as nat) * 64 + Bits(b as nat)) * 64 + Bits(c as nat)) * 64 + Bits(d as nat)
  {
    assert [a][..0] == "" && [a, b][..1] == [a] && [a, b, c][..2] == [a, b] && [a, b, c, d][..3] == [a, b, c];
  }

  /** The bytes carry the scalar value, and their first byte tells how many they are. */
  lemma Utf8RoundTrip(code: nat)
    requires code < 0x11_0000
    ensures FromUtf8(Utf8(code)) == code
    ensures |Utf8(code)| == if code < 0x80 then 1 else if code < 0x800 then 2 else if code < 0x1_0000 then 3 else 4
    ensures forall k :: 0 < k < |Utf8(code)| ==> 0x80 <= Utf8(code)[k] as nat < 0xC0
    ensures var first := Utf8(code)[0] as nat;
            match |Utf8(code)|
            case 1 => first < 0x80
            case 2 => 0xC2 <= first < 0xE0
            case 3 => 0xE0 <= first < 0xF0
            case _ => 0xF0 <= first < 0xF5
  {
    var s := Utf8(code);
    var at := (k: nat) => if k < |s| then s[k] else 'x';
    FromUtf8Of(at(0), at(1), at(2), at(3));
  }
}
