/** The part of Python's `json` module the settings table relies on:
    `json.dumps` with its default arguments (`ensure_ascii=True`,
    separators `", "` and `": "`) and `json.loads`, for values built from
    `None`, booleans, integers, finite floats, strings, lists and dicts with
    string keys. The round trip `loads(dumps(v)) == v` is proved for every
    such value. */
module Json {
  import opened Wrappers
  import opened Text

  /** A number with a fraction or an exponent is a float, kept exactly as
      the decimal `mantissa * 10^exponent` its literal denotes; Python's
      rounding to the nearest double is not modelled. */
  datatype Json =
    | JNull
    | JBool(b: bool)
    | JInt(i: int)
    | JFloat(mantissa: int, exponent: int)
    | JStr(s: string)
    | JArr(items: seq<Json>)
    | JObj(members: seq<Member>)

  /** One `key: value` entry of a JSON object, in insertion order. */
  datatype Member = Member(key: string, value: Json)

  /** A value a Python program can hold: every dict has distinct keys. */
  predicate WellFormed(v: Json) {
    match v
    case JArr(items) => forall i :: 0 <= i < |items| ==> WellFormed(items[i])
    case JObj(ms) =>
      && DistinctKeys(ms)
      && forall i :: 0 <= i < |ms| ==> WellFormed(ms[i].value)
    case _ => true
  }

  predicate DistinctKeys(ms: seq<Member>) {
    forall i, j :: 0 <= i < j < |ms| ==> ms[i].key != ms[j].key
  }

  // ---------------------------------------------------------------------------
  // json.dumps

  /** A lower-case hexadecimal digit, as `'{0:04x}'` writes it. */
  function HexDigit(d: nat): char
    requires d < 16
  {
    if d < 10 then (48 + d) as char else (87 + d) as char
  }

  /** Four lower-case hexadecimal digits of a 16-bit code unit. */
  function Hex4(n: nat): string
    requires n < 0x10000
  {
    [HexDigit(n / 16 / 16 / 16), HexDigit(n / 16 / 16 % 16), HexDigit(n / 16 % 16), HexDigit(n % 16)]
  }

  /** How `ensure_ascii` output writes one character: two-character escapes for
      the quote, backslash and five control characters, printable ASCII as is,
      other characters of the basic plane as `\uXXXX`, and the rest as a
      UTF-16 surrogate pair. */
  function EscapeChar(c: char): string {
    if c == '"' then "\\\""
    else if c == '\\' then "\\\\"
    else if c == '\n' then "\\n"
    else if c == '\r' then "\\r"
    else if c == '\t' then "\\t"
    else if c == '\U{0008}' then "\\b"
    else if c == '\U{000C}' then "\\f"
    else if ' ' <= c <= '~' then [c]
    else if (c as int) < 0x10000 then "\\u" + Hex4(c as int)
    else
      var n := c as int - 0x10000;
      "\\u" + Hex4(0xD800 + n / 0x400) + "\\u" + Hex4(0xDC00 + n % 0x400)
  }

  function Escape(s: string): string {
    if |s| == 0 then "" else EscapeChar(s[0]) + Escape(s[1..])
  }

  function Quote(s: string): string {
    "\"" + Escape(s) + "\""
  }

  /** `json.dumps(v)`. */
  function Dumps(v: Json): string
    decreases v
  {
    match v
    case JNull => "null"
    case JBool(b) => if b then "true" else "false"
    case JInt(i) => IntToDecimal(i)
    case JFloat(m, e) => IntToDecimal(m) + "e" + IntToDecimal(e)
    case JStr(s) => Quote(s)
    case JArr(items) => "[" + DumpItems(items) + "]"
    case JObj(ms) => "{" + DumpMembers(ms) + "}"
  }

  function DumpItems(items: seq<Json>): string
    decreases items
  {
    if |items| == 0 then ""
    else if |items| == 1 then Dumps(items[0])
    else Dumps(items[0]) + ", " + DumpItems(items[1..])
  }

  function DumpMember(m: Member): string
    decreases m
  {
    Quote(m.key) + ": " + Dumps(m.value)
  }

  function DumpMembers(ms: seq<Member>): string
    decreases ms
  {
    if |ms| == 0 then ""
    else if |ms| == 1 then DumpMember(ms[0])
    else DumpMember(ms[0]) + ", " + DumpMembers(ms[1..])
  }

  // ---------------------------------------------------------------------------
  // json.loads

  /** The whitespace JSON allows between tokens. */
  predicate IsJsonSpace(c: char) {
    c == ' ' || c == '\t' || c == '\n' || c == '\r'
  }

  function SkipWs(s: string): (r: string)
    ensures |r| <= |s|
  {
    TrimStart(s, IsJsonSpace)
  }

  function HexValue(c: char): Option<nat> {
    if '0' <= c <= '9' then Some(c as int - 48)
    else if 'a' <= c <= 'f' then Some(c as int - 87)
    else if 'A' <= c <= 'F' then Some(c as int - 55)
    else None
  }

  /** Four hexadecimal digits, upper or lower case. */
  function ParseHex4(s: string): (r: Option<nat>)
    requires |s| == 4
    ensures r.Some? ==> r.value < 0x10000
  {
    match (HexValue(s[0]), HexValue(s[1]), HexValue(s[2]), HexValue(s[3]))
    case (Some(a), Some(b), Some(c), Some(d)) =>
      assert a < 16 && b < 16 && c < 16 && d < 16;
      Some(((a * 16 + b) * 16 + c) * 16 + d)
    case _ => None
  }

  /** The escape sequence after a backslash inside a string literal. A `\u`
      escape of a high surrogate must be followed by one of a low surrogate;
      the two denote one character. */
  function ParseEscape(s: string): (r: Result<(char, string)>)
    ensures r.Success? ==> |r.value.1| < |s|
  {
    if |s| == 0 then Failure("Unterminated string")
    else if s[0] == '"' then Success(('"', s[1..]))
    else if s[0] == '\\' then Success(('\\', s[1..]))
    else if s[0] == '/' then Success(('/', s[1..]))
    else if s[0] == 'b' then Success(('\U{0008}', s[1..]))
    else if s[0] == 'f' then Success(('\U{000C}', s[1..]))
    else if s[0] == 'n' then Success(('\n', s[1..]))
    else if s[0] == 'r' then Success(('\r', s[1..]))
    else if s[0] == 't' then Success(('\t', s[1..]))
    else if s[0] != 'u' || |s| < 5 then Failure("Invalid \\escape")
    else
      match ParseHex4(s[1..5])
      case None => Failure("Invalid \\uXXXX escape")
      case Some(n) =>
        if 0xD800 <= n < 0xDC00 then
          if |s| >= 11 && s[5] == '\\' && s[6] == 'u' then
            match ParseHex4(s[7..11])
            case Some(m) =>
              if 0xDC00 <= m < 0xE000 then
                Success(((0x10000 + (n - 0xD800) * 0x400 + (m - 0xDC00)) as char, s[11..]))
              else Failure("lone surrogate")
            case None => Failure("Invalid \\uXXXX escape")
          else Failure("lone surrogate")
        else if 0xDC00 <= n < 0xE000 then Failure("lone surrogate")
        else Success((n as char, s[5..]))
  }

  /** One character of a string literal that does not start with the closing quote. */
  function ParseStrChar(s: string): (r: Result<(char, string)>)
    requires |s| > 0 && s[0] != '"'
    ensures r.Success? ==> |r.value.1| < |s|
  {
    if s[0] == '\\' then ParseEscape(s[1..])
    else if s[0] < ' ' then Failure("Invalid control character")
    else Success((s[0], s[1..]))
  }

  /** The characters of a string literal up to and including its closing quote. */
  function ParseStringChars(s: string): (r: Result<(string, string)>)
    ensures r.Success? ==> |r.value.1| < |s|
    decreases |s|
  {
    if |s| == 0 then Failure("Unterminated string")
    else if s[0] == '"' then Success(("", s[1..]))
    else
      match ParseStrChar(s)
      case Failure(e) => Failure(e)
      case Success((c, rest)) =>
        match ParseStringChars(rest)
        case Failure(e) => Failure(e)
        case Success((cs, rest')) => Success(([c] + cs, rest'))
  }

  /** The length of the longest all-digit prefix of `s`. */
  function DigitRun(s: string): (k: nat)
    ensures k <= |s| && AllDigits(s[..k])
    ensures k < |s| ==> !IsDigit(s[k])
  {
    if |s| > 0 && IsDigit(s[0]) then
      var k := 1 + DigitRun(s[1..]);
      assert s[..k] == [s[0]] + s[1..][..k - 1];
      k
    else 0
  }

  /** The digits of an unsigned JSON integer `0|[1-9][0-9]*` and the text after them. */
  function ParseUnsigned(t: string): (r: Result<(int, string)>)
    ensures r.Success? ==> |r.value.1| < |t|
  {
    if |t| == 0 || !IsDigit(t[0]) then Failure("Expecting value")
    else
      var k := if t[0] == '0' then 1 else DigitRun(t);
      Success((DecimalValue(t[..k]), t[k..]))
  }

  function Pow10(k: nat): (r: nat)
    ensures r > 0
  {
    if k == 0 then 1 else 10 * Pow10(k - 1)
  }

  /** The digits of a fraction `\.[0-9]+` at the start of `s`, and the text
      after it; no digits and `s` itself when there is none. */
  function ParseFraction(s: string): (r: (string, string))
    ensures AllDigits(r.0) && |r.1| <= |s|
    ensures |r.0| == 0 ==> r.1 == s
  {
    if |s| > 1 && s[0] == '.' && IsDigit(s[1]) then
      var k := DigitRun(s[1..]);
      (s[1..][..k], s[1..][k..])
    else ("", s)
  }

  /** An exponent `[eE][-+]?[0-9]+` at the start of `s`: its value and the text after it. */
  function ParseExponent(s: string): (r: Option<(int, string)>)
    ensures r.Some? ==> |r.value.1| < |s|
  {
    if |s| > 0 && (s[0] == 'e' || s[0] == 'E') then
      if |s| > 1 && s[1] == '-' then
        match ExponentDigits(s[2..])
        case None => None
        case Some((v, rest)) => Some((-v, rest))
      else if |s| > 1 && s[1] == '+' then ExponentDigits(s[2..])
      else ExponentDigits(s[1..])
    else None
  }

  /** The digits of an exponent, after its marker and sign: their value and the text after them. */
  function ExponentDigits(t: string): (r: Option<(int, string)>)
    ensures r.Some? ==> |r.value.1| < |t|
  {
    if |t| > 0 && IsDigit(t[0]) then
      var k := DigitRun(t);
      Some((DecimalValue(t[..k]) as int, t[k..]))
    else None
  }

  /** A JSON number `-?(0|[1-9][0-9]*)(\.[0-9]+)?([eE][-+]?[0-9]+)?`: an
      integer when neither a fraction nor an exponent follows, a float
      otherwise. */
  function ParseNumber(s: string): (r: Result<(Json, string)>)
    ensures r.Success? ==> |r.value.1| < |s|
  {
    var neg := |s| > 0 && s[0] == '-';
    match ParseUnsigned(if neg then s[1..] else s)
    case Failure(e) => Failure(e)
    case Success((n, rest)) => Success(NumberAfter(neg, n, rest))
  }

  /** The number whose integer digits read as `n`, given the text after
      them: an optional fraction and exponent are read from `rest`; a `.`
      or an `e` that does not start one is left in the text after. */
  function NumberAfter(neg: bool, n: int, rest: string): (r: (Json, string))
    ensures |r.1| <= |rest|
  {
    var (frac, rest1) := ParseFraction(rest);
    var exp := ParseExponent(rest1);
    if |frac| == 0 && exp.None? then (JInt(if neg then -n else n), rest)
    else
      var m := n * Pow10(|frac|) + DecimalValue(frac);
      var e := (if exp.Some? then exp.value.0 else 0) - |frac|;
      (JFloat(if neg then -m else m, e), if exp.Some? then exp.value.1 else rest1)
  }

  /** One JSON value at the very start of `s` (the scanner does not skip
      leading whitespace itself), and the text after it. */
  function ParseValue(s: string): (r: Result<(Json, string)>)
    ensures r.Success? ==> |r.value.1| < |s|
    decreases |s|, 0
  {
    if |s| == 0 then Failure("Expecting value")
    else if s[0] == '"' then
      match ParseStringChars(s[1..])
      case Failure(e) => Failure(e)
      case Success((str, rest)) => Success((JStr(str), rest))
    else if s[0] == '[' then ParseArray(s[1..])
    else if s[0] == '{' then ParseObject(s[1..])
    else if "null" <= s then Success((JNull, s[4..]))
    else if "true" <= s then Success((JBool(true), s[4..]))
    else if "false" <= s then Success((JBool(false), s[5..]))
    else ParseNumber(s)
  }

  /** The text after an opening bracket. */
  function ParseArray(s: string): (r: Result<(Json, string)>)
    ensures r.Success? ==> |r.value.1| < |s|
    decreases |s|, 2
  {
    var t := SkipWs(s);
    if |t| > 0 && t[0] == ']' then Success((JArr([]), t[1..]))
    else
      match ParseElements(t)
      case Failure(e) => Failure(e)
      case Success((items, rest)) => Success((JArr(items), rest))
  }

  /** Values separated by commas up to and including the closing bracket. */
  function ParseElements(s: string): (r: Result<(seq<Json>, string)>)
    ensures r.Success? ==> |r.value.1| < |s|
    decreases |s|, 1
  {
    match ParseValue(s)
    case Failure(e) => Failure(e)
    case Success((v, rest)) =>
      var t := SkipWs(rest);
      if |t| > 0 && t[0] == ']' then Success(([v], t[1..]))
      else if |t| > 0 && t[0] == ',' then
        match ParseElements(SkipWs(t[1..]))
        case Failure(e) => Failure(e)
        case Success((vs, rest')) => Success(([v] + vs, rest'))
      else Failure("Expecting ',' delimiter")
  }

  /** The text after an opening brace. */
  function ParseObject(s: string): (r: Result<(Json, string)>)
    ensures r.Success? ==> |r.value.1| < |s|
    decreases |s|, 2
  {
    var t := SkipWs(s);
    if |t| > 0 && t[0] == '}' then Success((JObj([]), t[1..]))
    else
      match ParseMembers(t)
      case Failure(e) => Failure(e)
      case Success((ms, rest)) => Success((JObj(Collapse(ms)), rest))
  }

  /** One `"key": value` pair, and the text after the value. */
  function ParseMember(s: string): (r: Result<(Member, string)>)
    ensures r.Success? ==> |r.value.1| < |s|
    decreases |s|, 0
  {
    if |s| == 0 || s[0] != '"' then Failure("Expecting property name enclosed in double quotes")
    else
    match ParseStringChars(s[1..])
    case Failure(e) => Failure(e)
    case Success((key, afterKey)) =>
      var t := SkipWs(afterKey);
      if |t| == 0 || t[0] != ':' then Failure("Expecting ':' delimiter")
      else
        match ParseValue(SkipWs(t[1..]))
        case Failure(e) => Failure(e)
        case Success((v, rest)) => Success((Member(key, v), rest))
  }

  /** `"key": value` pairs separated by commas up to and including the closing brace. */
  function ParseMembers(s: string): (r: Result<(seq<Member>, string)>)
    ensures r.Success? ==> |r.value.1| < |s|
    decreases |s|, 1
  {
    match ParseMember(s)
    case Failure(e) => Failure(e)
    case Success((m, rest)) => ParseMembersAfter(m, rest)
  }

  /** What follows one member: the closing brace, or a comma and further members. */
  function ParseMembersAfter(m: Member, rest: string): (r: Result<(seq<Member>, string)>)
    ensures r.Success? ==> |r.value.1| < |rest|
    decreases |rest|, 2
  {
    var u := SkipWs(rest);
    if |u| > 0 && u[0] == '}' then Success(([m], u[1..]))
    else if |u| > 0 && u[0] == ',' then
      match ParseMembers(SkipWs(u[1..]))
      case Failure(e) => Failure(e)
      case Success((ms, rest')) => Success(([m] + ms, rest'))
    else Failure("Expecting ',' delimiter")
  }

  /** `dict(pairs)`: a repeated key keeps its first position and its last value. */
  function Collapse(ms: seq<Member>): seq<Member> {
    CollapseInto([], ms)
  }

  function CollapseInto(acc: seq<Member>, ms: seq<Member>): seq<Member>
    decreases |ms|
  {
    if |ms| == 0 then acc else CollapseInto(Upsert(acc, ms[0]), ms[1..])
  }

  function Upsert(acc: seq<Member>, m: Member): seq<Member> {
    if |acc| == 0 then [m]
    else if acc[0].key == m.key then [m] + acc[1..]
    else [acc[0]] + Upsert(acc[1..], m)
  }

  /** `json.loads(s)`: one value with optional surrounding whitespace and
      nothing else; `None` where Python raises `JSONDecodeError`. */
  function Loads(s: string): Option<Json> {
    if |s| > 0 && s[0] == '\U{FEFF}' then None
    else
      match ParseValue(SkipWs(s))
      case Success((v, rest)) => if |SkipWs(rest)| == 0 then Some(v) else None
      case Failure(_) => None
  }

  // ---------------------------------------------------------------------------
  // Round trip

  // Regrouping concatenations, stated once so that proofs need not rediscover them.

  lemma Assoc(a: string, b: string, c: string)
    ensures a + b + c == a + (b + c)
  {
  }

  lemma Assoc4(a: string, b: string, c: string, d: string)
    ensures a + b + c + d == a + (b + c + d)
  {
  }

  lemma Append3(a: string, b: string, c: string, d: string)
    ensures a + b + c + d == a + b + (c + d)
  {
  }

  lemma Regroup(a: string, b: string, c: string, d: string, e: string)
    ensures a + b + c + d + e == a + (b + (c + d + e))
  {
  }

  lemma ConsSeq<T>(xs: seq<T>)
    requires |xs| > 0
    ensures [xs[0]] + xs[1..] == xs
  {
  }

  lemma OneSeq<T>(xs: seq<T>)
    requires |xs| == 1
    ensures [xs[0]] == xs
  {
  }

  lemma HeadOf(a: string, b: string)
    requires |a| > 0
    ensures |a + b| > 0 && (a + b)[0] == a[0]
  {
  }

  lemma HexDigitValue(d: nat)
    requires d < 16
    ensures HexValue(HexDigit(d)) == Some(d)
  {
  }

  lemma HexRoundTrip(n: nat)
    requires n < 0x10000
    ensures ParseHex4(Hex4(n)) == Some(n)
  {
    var q1 := n / 16;
    var q2 := q1 / 16;
    var a, b, c, d := q2 / 16, q2 % 16, q1 % 16, n % 16;
    HexDigitValue(a);
    HexDigitValue(b);
    HexDigitValue(c);
    HexDigitValue(d);
    assert q2 == a * 16 + b;
    assert q1 == q2 * 16 + c;
    assert n == q1 * 16 + d;
  }

  /** What may follow a value inside the output of `Dumps`: the end of the
      text, or the separator or bracket that closes it. */
  predicate Delimits(rest: string) {
    |rest| == 0 || rest[0] == ',' || rest[0] == ']' || rest[0] == '}'
  }

  lemma EscapeCharHead(c: char)
    ensures |EscapeChar(c)| > 0 && EscapeChar(c)[0] != '"'
  {
  }

  /** A character written as a two-character escape reads back. */
  lemma ShortEscapeRoundTrip(c: char, tail: string)
    requires c == '"' || c == '\\' || c == '\n' || c == '\r' || c == '\t' || c == '\U{0008}' || c == '\U{000C}'
    ensures ParseStrChar(EscapeChar(c) + tail) == Success((c, tail))
  {
    var s := EscapeChar(c) + tail;
    assert |EscapeChar(c)| == 2 && EscapeChar(c)[0] == '\\';
    assert s[1..][1..] == tail;
  }

  /** A printable ASCII character other than the quote and backslash is written as itself. */
  lemma PlainRoundTrip(c: char, tail: string)
    requires ' ' <= c <= '~' && c != '"' && c != '\\'
    ensures ParseStrChar(EscapeChar(c) + tail) == Success((c, tail))
  {
    assert EscapeChar(c) == [c];
    assert ([c] + tail)[1..] == tail;
  }

  /** Any other character of the basic plane is written as one `\uXXXX` escape. */
  lemma BmpRoundTrip(c: char, tail: string)
    requires !(' ' <= c <= '~') && c != '\n' && c != '\r' && c != '\t' && c != '\U{0008}' && c != '\U{000C}'
    requires (c as int) < 0x10000
    ensures ParseStrChar(EscapeChar(c) + tail) == Success((c, tail))
  {
    var h := Hex4(c as int);
    assert EscapeChar(c) == "\\u" + h;
    var s := "\\u" + h + tail;
    HexRoundTrip(c as int);
    var t := s[1..];
    assert t == "u" + h + tail;
    assert t[1..5] == h;
    assert t[5..] == tail;
  }

  lemma SurrogateArithmetic(c: int)
    requires 0x10000 <= c < 0x110000
    ensures var n := c - 0x10000;
      && 0xD800 <= 0xD800 + n / 0x400 < 0xDC00
      && 0xDC00 <= 0xDC00 + n % 0x400 < 0xE000
      && 0x10000 + n / 0x400 * 0x400 + n % 0x400 == c
  {
  }

  /** A `\u` escape of a high surrogate followed by one of a low surrogate. */
  lemma ParseEscapePair(s: string, hi: nat, lo: nat, tail: string)
    requires 0xD800 <= hi < 0xDC00 && 0xDC00 <= lo < 0xE000
    requires s == "u" + Hex4(hi) + "\\u" + Hex4(lo) + tail
    ensures ParseEscape(s) == Success(((0x10000 + (hi - 0xD800) * 0x400 + (lo - 0xDC00)) as char, tail))
  {
    HexRoundTrip(hi);
    HexRoundTrip(lo);
    assert s[1..5] == Hex4(hi);
    assert s[5] == '\\' && s[6] == 'u';
    assert s[7..11] == Hex4(lo);
    assert s[11..] == tail;
  }

  lemma EscapeCharAstral(c: char)
    requires (c as int) >= 0x10000
    ensures var n := c as int - 0x10000;
      EscapeChar(c) == "\\" + ("u" + Hex4(0xD800 + n / 0x400) + "\\u" + Hex4(0xDC00 + n % 0x400))
  {
  }

  lemma ParseStrCharEscape(t: string)
    ensures ParseStrChar("\\" + t) == ParseEscape(t)
  {
    assert ("\\" + t)[1..] == t;
  }

  /** A character outside the basic plane is written as a surrogate pair. */
  lemma AstralRoundTrip(c: char, tail: string)
    requires (c as int) >= 0x10000
    ensures ParseStrChar(EscapeChar(c) + tail) == Success((c, tail))
  {
    var n := c as int - 0x10000;
    var hi := 0xD800 + n / 0x400;
    var lo := 0xDC00 + n % 0x400;
    SurrogateArithmetic(c as int);
    var t := "u" + Hex4(hi) + "\\u" + Hex4(lo) + tail;
    EscapeCharAstral(c);
    Assoc("\\", "u" + Hex4(hi) + "\\u" + Hex4(lo), tail);
    ParseStrCharEscape(t);
    ParseEscapePair(t, hi, lo, tail);
  }

  lemma EscapeCharRoundTrip(c: char, tail: string)
    ensures ParseStrChar(EscapeChar(c) + tail) == Success((c, tail))
  {
    if c == '"' || c == '\\' || c == '\n' || c == '\r' || c == '\t' || c == '\U{0008}' || c == '\U{000C}' {
      ShortEscapeRoundTrip(c, tail);
    } else if ' ' <= c <= '~' {
      PlainRoundTrip(c, tail);
    } else if (c as int) < 0x10000 {
      BmpRoundTrip(c, tail);
    } else {
      AstralRoundTrip(c, tail);
    }
  }

  lemma {:induction false} StringRoundTrip(s: string, rest: string)
    ensures ParseStringChars(Escape(s) + "\"" + rest) == Success((s, rest))
    decreases |s|
  {
    if |s| == 0 {
      assert Escape(s) + "\"" + rest == "\"" + rest;
      assert ("\"" + rest)[1..] == rest;
    } else {
      var tail := Escape(s[1..]) + "\"" + rest;
      assert Escape(s) == EscapeChar(s[0]) + Escape(s[1..]);
      Assoc4(EscapeChar(s[0]), Escape(s[1..]), "\"", rest);
      EscapeCharHead(s[0]);
      EscapeCharRoundTrip(s[0], tail);
      StringRoundTrip(s[1..], rest);
      ConsSeq(s);
    }
  }

  lemma QuoteRoundTrip(s: string, rest: string)
    ensures ParseValue(Quote(s) + rest) == Success((JStr(s), rest))
  {
    var t := Quote(s) + rest;
    Assoc4("\"", Escape(s), "\"", rest);
    assert t[1..] == Escape(s) + "\"" + rest;
    StringRoundTrip(s, rest);
  }

  /** The first character of every `Dumps` output opens the value: it is
      neither JSON whitespace nor the closing quote of a string. */
  lemma DumpsHead(v: Json)
    ensures |Dumps(v)| > 0
    ensures !IsJsonSpace(Dumps(v)[0])
    ensures v.JArr? ==> Dumps(v)[0] == '['
    ensures v.JObj? ==> Dumps(v)[0] == '{'
    ensures !v.JArr? && !v.JObj? ==> Dumps(v)[0] != '[' && Dumps(v)[0] != '{'
    ensures Dumps(v)[0] != ']' && Dumps(v)[0] != '}' && Dumps(v)[0] != ','
  {
    if v.JInt? {
      var i := v.i;
      assert Dumps(v)[0] == '-' || IsDigit(Dumps(v)[0]);
    } else if v.JFloat? {
      assert Dumps(v)[0] == IntToDecimal(v.mantissa)[0];
      assert Dumps(v)[0] == '-' || IsDigit(Dumps(v)[0]);
    }
  }

  lemma SkipWsNoSpace(s: string)
    requires |s| > 0 && !IsJsonSpace(s[0])
    ensures SkipWs(s) == s
  {
  }

  lemma SkipOneSpace(s: string)
    requires |s| > 0 && !IsJsonSpace(s[0])
    ensures SkipWs(" " + s) == s
  {
    assert (" " + s)[1..] == s;
  }

  lemma {:induction false} DigitRunOf(digits: string, rest: string)
    requires AllDigits(digits)
    requires |rest| == 0 || !IsDigit(rest[0])
    ensures DigitRun(digits + rest) == |digits|
    decreases |digits|
  {
    if |digits| == 0 {
      assert digits + rest == rest;
    } else {
      assert (digits + rest)[1..] == digits[1..] + rest;
      DigitRunOf(digits[1..], rest);
    }
  }

  /** An unsigned JSON integer literal without a redundant leading zero,
      followed by a character that cannot continue the number. */
  lemma ParseUnsignedOf(digits: string, rest: string)
    requires |digits| > 0 && AllDigits(digits)
    requires digits[0] == '0' ==> |digits| == 1
    requires |rest| == 0 || !IsDigit(rest[0])
    ensures ParseUnsigned(digits + rest) == Success((DecimalValue(digits) as int, rest))
  {
    var t := digits + rest;
    if t[0] != '0' {
      DigitRunOf(digits, rest);
    }
    assert t[..|digits|] == digits && t[|digits|..] == rest;
  }

  lemma ParseNumberUnsigned(s: string, n: int, rest: string)
    requires |s| > 0 && s[0] != '-'
    requires ParseUnsigned(s) == Success((n, rest))
    requires Delimits(rest)
    ensures ParseNumber(s) == Success((JInt(n), rest))
  {
  }

  lemma ParseNumberNegative(s: string, n: int, rest: string)
    requires |s| > 0 && s[0] == '-'
    requires ParseUnsigned(s[1..]) == Success((n, rest))
    requires Delimits(rest)
    ensures ParseNumber(s) == Success((JInt(-n), rest))
  {
  }

  lemma UnsignedRoundTrip(n: nat, rest: string)
    requires Delimits(rest)
    ensures var t := NatToDecimal(n) + rest;
      |t| > 0 && IsDigit(t[0]) && ParseUnsigned(t) == Success((n, rest))
  {
    var digits := NatToDecimal(n);
    ParseUnsignedOf(digits, rest);
  }

  lemma IntRoundTrip(i: int, rest: string)
    requires Delimits(rest)
    ensures ParseNumber(IntToDecimal(i) + rest) == Success((JInt(i), rest))
  {
    if i < 0 {
      var t := NatToDecimal(-i) + rest;
      UnsignedRoundTrip(-i, rest);
      var s := "-" + t;
      assert IntToDecimal(i) == "-" + NatToDecimal(-i);
      Assoc("-", NatToDecimal(-i), rest);
      assert s[1..] == t;
      ParseNumberNegative(s, -i, rest);
    } else {
      UnsignedRoundTrip(i, rest);
      ParseNumberUnsigned(NatToDecimal(i) + rest, i, rest);
    }
  }

  lemma IntValueRoundTrip(i: int, rest: string)
    requires Delimits(rest)
    ensures ParseValue(IntToDecimal(i) + rest) == Success((JInt(i), rest))
  {
    var s := IntToDecimal(i) + rest;
    DumpsHead(JInt(i));
    assert s[0] == '-' || IsDigit(s[0]);
    IntRoundTrip(i, rest);
  }

  /** The exponent `Dumps` writes reads back as itself. */
  lemma ExponentRoundTrip(s: string, e: int, rest: string)
    requires Delimits(rest)
    requires s == "e" + IntToDecimal(e) + rest
    ensures ParseExponent(s) == Some((e, rest))
  {
    ExponentText(e, rest);
    if e < 0 {
      ExponentMinusOf(s, NatToDecimal(-e), rest);
    } else {
      ExponentPlainOf(s, NatToDecimal(e), rest);
    }
  }

  /** How the exponent `Dumps` writes splits into marker, sign and digits. */
  lemma ExponentText(e: int, rest: string)
    ensures e < 0 ==> "e" + IntToDecimal(e) + rest == "e-" + (NatToDecimal(-e) + rest)
    ensures e >= 0 ==> "e" + IntToDecimal(e) + rest == "e" + (NatToDecimal(e) + rest)
  {
  }

  /** `e` and digits, then a text that does not continue them. */
  lemma ExponentPlainOf(s: string, digits: string, rest: string)
    requires |digits| > 0 && AllDigits(digits)
    requires Delimits(rest)
    requires s == "e" + (digits + rest)
    ensures ParseExponent(s) == Some((DecimalValue(digits) as int, rest))
  {
    DigitsThenRest(digits, rest);
    ParseExponentPlain(digits + rest, DecimalValue(digits), rest);
  }

  /** `e-` and digits, then a text that does not continue them. */
  lemma ExponentMinusOf(s: string, digits: string, rest: string)
    requires |digits| > 0 && AllDigits(digits)
    requires Delimits(rest)
    requires s == "e-" + (digits + rest)
    ensures ParseExponent(s) == Some((-(DecimalValue(digits) as int), rest))
  {
    DigitsThenRest(digits, rest);
    ParseExponentMinus(digits + rest, DecimalValue(digits), rest);
  }

  /** A digit run followed by a text that does not continue it. */
  lemma DigitsThenRest(digits: string, rest: string)
    requires |digits| > 0 && AllDigits(digits)
    requires Delimits(rest)
    ensures var t := digits + rest;
      && |t| > 0 && t[0] != '-' && t[0] != '+'
      && ExponentDigits(t) == Some((DecimalValue(digits) as int, rest))
  {
    var t := digits + rest;
    assert DigitRun(t) == |digits| by {
      DigitRunOf(digits, rest);
    }
    assert t[..|digits|] == digits && t[|digits|..] == rest;
    assert IsDigit(t[0]);
  }

  /** `e` then an unsigned digit run read as `v`, then `rest`. */
  lemma ParseExponentPlain(t: string, v: int, rest: string)
    requires |t| > 0 && t[0] != '-' && t[0] != '+'
    requires ExponentDigits(t) == Some((v, rest))
    ensures ParseExponent("e" + t) == Some((v, rest))
  {
    var s := "e" + t;
    assert |s| > 1 && s[0] == 'e' && s[1] == t[0] && s[1..] == t;
  }

  /** `e-` then a digit run read as `v`, then `rest`. */
  lemma ParseExponentMinus(t: string, v: int, rest: string)
    requires ExponentDigits(t) == Some((v, rest))
    ensures ParseExponent("e-" + t) == Some((-v, rest))
  {
    var s := "e-" + t;
    assert |s| > 1 && s[0] == 'e' && s[1] == '-' && s[2..] == t;
  }

  /** `ParseNumber` on a mantissa followed straight by an exponent. */
  lemma ParseNumberExponent(s: string, neg: bool, n: int, tail: string, e: int, rest: string)
    requires neg <==> |s| > 0 && s[0] == '-'
    requires ParseUnsigned(if neg then s[1..] else s) == Success((n, tail))
    requires |tail| > 0 && tail[0] == 'e'
    requires ParseExponent(tail) == Some((e, rest))
    ensures ParseNumber(s) == Success((JFloat(if neg then -n else n, e), rest))
  {
    NumberAfterExponent(neg, n, tail, e, rest);
  }

  /** Integer digits followed straight by an exponent make a float with that exponent. */
  lemma NumberAfterExponent(neg: bool, n: int, tail: string, e: int, rest: string)
    requires |tail| > 0 && tail[0] == 'e'
    requires ParseExponent(tail) == Some((e, rest))
    ensures NumberAfter(neg, n, tail) == (JFloat(if neg then -n else n, e), rest)
  {
    assert ParseFraction(tail) == ("", tail);
    assert n * Pow10(|""|) + DecimalValue("") == n by {
      assert Pow10(0) == 1 && DecimalValue("") == 0;
    }
  }

  /** A mantissa followed by an exponent that reads as `e`. */
  lemma MantissaRoundTrip(m: int, tail: string, e: int, rest: string)
    requires |tail| > 0 && tail[0] == 'e'
    requires ParseExponent(tail) == Some((e, rest))
    ensures ParseNumber(IntToDecimal(m) + tail) == Success((JFloat(m, e), rest))
  {
    var n: nat := if m < 0 then -m else m;
    var t := NatToDecimal(n) + tail;
    ParseUnsignedOf(NatToDecimal(n), tail);
    if m < 0 {
      var s := "-" + t;
      Assoc("-", NatToDecimal(n), tail);
      assert s[1..] == t;
      ParseNumberExponent(s, true, n, tail, e, rest);
    } else {
      ParseNumberExponent(t, false, n, tail, e, rest);
    }
  }

  /** A float as `Dumps` writes it: the mantissa's digits, then the exponent. */
  lemma FloatRoundTrip(m: int, e: int, rest: string)
    requires Delimits(rest)
    ensures ParseNumber(IntToDecimal(m) + "e" + IntToDecimal(e) + rest) == Success((JFloat(m, e), rest))
  {
    var tail := "e" + IntToDecimal(e) + rest;
    ExponentRoundTrip(tail, e, rest);
    Assoc4(IntToDecimal(m), "e", IntToDecimal(e), rest);
    MantissaRoundTrip(m, tail, e, rest);
  }

  /** A text that starts like a number starts no keyword. */
  lemma NoKeyword(s: string)
    requires |s| > 0 && (s[0] == '-' || IsDigit(s[0]))
    ensures !("null" <= s) && !("true" <= s) && !("false" <= s)
  {
    assert s[0] != 'n' && s[0] != 't' && s[0] != 'f';
    assert "null"[0] == 'n' && "true"[0] == 't' && "false"[0] == 'f';
  }

  /** A text that starts like a number is read by `ParseNumber`. */
  lemma ParseValueNumber(s: string, x: Result<(Json, string)>)
    requires |s| > 0 && (s[0] == '-' || IsDigit(s[0]))
    requires ParseNumber(s) == x
    ensures ParseValue(s) == x
  {
    NoKeyword(s);
    assert s[0] != '"' && s[0] != '[' && s[0] != '{';
  }

  lemma FloatValueRoundTrip(m: int, e: int, rest: string)
    requires Delimits(rest)
    ensures ParseValue(Dumps(JFloat(m, e)) + rest) == Success((JFloat(m, e), rest))
  {
    var s := Dumps(JFloat(m, e)) + rest;
    DumpsHead(JFloat(m, e));
    assert s[0] == '-' || IsDigit(s[0]);
    assert s == IntToDecimal(m) + "e" + IntToDecimal(e) + rest;
    FloatRoundTrip(m, e, rest);
    ParseValueNumber(s, Success((JFloat(m, e), rest)));
  }

  lemma LiteralRoundTrip(v: Json, rest: string)
    requires v.JNull? || v.JBool?
    ensures ParseValue(Dumps(v) + rest) == Success((v, rest))
  {
    var s := Dumps(v) + rest;
    if v.JNull? || v.b {
      assert s[4..] == rest;
    } else {
      assert s[5..] == rest;
    }
  }

  // One step of the parser at a time: each lemma below unfolds a single
  // parsing function on a text of a known shape.

  lemma ParseValueBracket(s: string)
    requires |s| > 0 && s[0] == '['
    ensures ParseValue(s) == ParseArray(s[1..])
  {
  }

  lemma ParseValueBrace(s: string)
    requires |s| > 0 && s[0] == '{'
    ensures ParseValue(s) == ParseObject(s[1..])
  {
  }

  lemma ParseArrayEmpty(s: string, rest: string)
    requires s == "]" + rest
    ensures ParseArray(s) == Success((JArr([]), rest))
  {
    assert s[1..] == rest;
  }

  lemma ParseArrayItems(s: string, items: seq<Json>, rest: string)
    requires |s| > 0 && !IsJsonSpace(s[0]) && s[0] != ']'
    requires ParseElements(s) == Success((items, rest))
    ensures ParseArray(s) == Success((JArr(items), rest))
  {
    SkipWsNoSpace(s);
  }

  lemma ParseObjectEmpty(s: string, rest: string)
    requires s == "}" + rest
    ensures ParseObject(s) == Success((JObj([]), rest))
  {
    assert s[1..] == rest;
  }

  lemma ParseObjectMembers(s: string, ms: seq<Member>, rest: string)
    requires ParseMembers(s) == Success((ms, rest))
    ensures ParseObject(s) == Success((JObj(Collapse(ms)), rest))
  {
    ParseMembersHead(s);
    SkipWsNoSpace(s);
  }

  lemma ParseElementsLast(s: string, vs: seq<Json>, rest: string)
    requires |vs| == 1
    requires ParseValue(s) == Success((vs[0], "]" + rest))
    ensures ParseElements(s) == Success((vs, rest))
  {
    OneSeq(vs);
    SkipWsNoSpace("]" + rest);
    assert ("]" + rest)[1..] == rest;
  }

  lemma ParseElementsMore(s: string, vs: seq<Json>, tail: string, rest: string)
    requires |vs| > 0
    requires ParseValue(s) == Success((vs[0], ", " + tail))
    requires |tail| > 0 && !IsJsonSpace(tail[0])
    requires ParseElements(tail) == Success((vs[1..], rest))
    ensures ParseElements(s) == Success((vs, rest))
  {
    ConsSeq(vs);
    SkipCommaSpace(tail);
  }

  lemma ParseMembersAfterLast(m: Member, rest: string)
    ensures ParseMembersAfter(m, "}" + rest) == Success(([m], rest))
  {
    SkipWsNoSpace("}" + rest);
    assert ("}" + rest)[1..] == rest;
  }

  lemma ParseMembersLast(s: string, ms: seq<Member>, rest: string)
    requires |ms| == 1
    requires ParseMember(s) == Success((ms[0], "}" + rest))
    ensures ParseMembers(s) == Success((ms, rest))
  {
    OneSeq(ms);
    ParseMembersAfterLast(ms[0], rest);
  }

  lemma SkipCommaSpace(tail: string)
    requires |tail| > 0 && !IsJsonSpace(tail[0])
    ensures SkipWs(", " + tail) == ", " + tail
    ensures SkipWs((", " + tail)[1..]) == tail
  {
    SkipWsNoSpace(", " + tail);
    assert (", " + tail)[1..] == " " + tail;
    SkipOneSpace(tail);
  }

  /** Members can only be read from text that opens with a quote. */
  lemma ParseMembersHead(s: string)
    requires ParseMembers(s).Success?
    ensures |s| > 0 && s[0] == '"'
  {
  }

  lemma ParseMembersAfterMore(m: Member, tail: string, ms: seq<Member>, rest: string)
    requires ParseMembers(tail) == Success((ms, rest))
    ensures ParseMembersAfter(m, ", " + tail) == Success(([m] + ms, rest))
  {
    ParseMembersHead(tail);
    SkipCommaSpace(tail);
  }

  lemma ParseMembersMore(s: string, ms: seq<Member>, tail: string, rest: string)
    requires |ms| > 0
    requires ParseMember(s) == Success((ms[0], ", " + tail))
    requires ParseMembers(tail) == Success((ms[1..], rest))
    ensures ParseMembers(s) == Success((ms, rest))
  {
    ConsSeq(ms);
    ParseMembersAfterMore(ms[0], tail, ms[1..], rest);
  }

  lemma ParseMemberOf(s: string, key: string, t: string, v: Json, after: string)
    requires |s| > 0 && s[0] == '"'
    requires ParseStringChars(s[1..]) == Success((key, t))
    requires |t| > 0 && t[0] == ':'
    requires ParseValue(SkipWs(t[1..])) == Success((v, after))
    ensures ParseMember(s) == Success((Member(key, v), after))
  {
    SkipWsNoSpace(t);
  }

  lemma {:induction false} ValueRoundTrip(v: Json, rest: string)
    requires WellFormed(v)
    requires Delimits(rest)
    ensures ParseValue(Dumps(v) + rest) == Success((v, rest))
    decreases v
  {
    match v
    case JNull => LiteralRoundTrip(v, rest);
    case JBool(_) => LiteralRoundTrip(v, rest);
    case JInt(i) => IntValueRoundTrip(i, rest);
    case JFloat(m, e) => FloatValueRoundTrip(m, e, rest);
    case JStr(s) => QuoteRoundTrip(s, rest);
    case JArr(items) => ArrRoundTrip(items, rest);
    case JObj(ms) => ObjRoundTrip(ms, rest);
  }

  lemma {:induction false} ArrRoundTrip(items: seq<Json>, rest: string)
    requires forall i :: 0 <= i < |items| ==> WellFormed(items[i])
    ensures ParseValue(Dumps(JArr(items)) + rest) == Success((JArr(items), rest))
    decreases items, 1
  {
    if |items| == 0 {
      ArrEmptyText(rest);
    } else {
      ItemsRoundTrip(items, rest);
      ArrText(items, rest);
    }
  }

  lemma {:induction false} ObjRoundTrip(ms: seq<Member>, rest: string)
    requires DistinctKeys(ms)
    requires forall i :: 0 <= i < |ms| ==> WellFormed(ms[i].value)
    ensures ParseValue(Dumps(JObj(ms)) + rest) == Success((JObj(ms), rest))
    decreases ms, 1
  {
    if |ms| == 0 {
      ObjEmptyText(rest);
    } else {
      MembersRoundTrip(ms, rest);
      ObjText(ms, rest);
    }
  }

  lemma ArrEmptyText(rest: string)
    ensures ParseValue(Dumps(JArr([])) + rest) == Success((JArr([]), rest))
  {
    var s := Dumps(JArr([])) + rest;
    ArrShape([], rest);
    ParseValueBracket(s);
    ParseArrayEmpty("]" + rest, rest);
  }

  lemma ArrText(items: seq<Json>, rest: string)
    requires |items| > 0
    requires ParseElements(DumpItems(items) + "]" + rest) == Success((items, rest))
    ensures ParseValue(Dumps(JArr(items)) + rest) == Success((JArr(items), rest))
  {
    var s := Dumps(JArr(items)) + rest;
    ArrShape(items, rest);
    ParseValueBracket(s);
    DumpItemsHead(items);
    DumpsHead(items[0]);
    ParseArrayItems(DumpItems(items) + "]" + rest, items, rest);
  }

  lemma ObjEmptyText(rest: string)
    ensures ParseValue(Dumps(JObj([])) + rest) == Success((JObj([]), rest))
  {
    var s := Dumps(JObj([])) + rest;
    ObjShape([], rest);
    ParseValueBrace(s);
    ParseObjectEmpty("}" + rest, rest);
  }

  lemma ObjText(ms: seq<Member>, rest: string)
    requires |ms| > 0 && DistinctKeys(ms)
    requires ParseMembers(DumpMembers(ms) + "}" + rest) == Success((ms, rest))
    ensures ParseValue(Dumps(JObj(ms)) + rest) == Success((JObj(ms), rest))
  {
    var s := Dumps(JObj(ms)) + rest;
    ObjShape(ms, rest);
    ParseValueBrace(s);
    CollapseDistinct(ms);
    ParseObjectMembers(DumpMembers(ms) + "}" + rest, ms, rest);
  }

  lemma DumpItemsHead(items: seq<Json>)
    requires |items| > 0
    ensures |DumpItems(items)| > 0 && DumpItems(items)[0] == Dumps(items[0])[0]
  {
    DumpsHead(items[0]);
  }

  lemma {:induction false} ItemsRoundTrip(items: seq<Json>, rest: string)
    requires |items| > 0
    requires forall i :: 0 <= i < |items| ==> WellFormed(items[i])
    ensures ParseElements(DumpItems(items) + "]" + rest) == Success((items, rest))
    decreases items, 0
  {
    if |items| == 1 {
      ValueRoundTrip(items[0], "]" + rest);
      ItemsOneText(items, rest);
    } else {
      var tail := DumpItems(items[1..]) + "]" + rest;
      ValueRoundTrip(items[0], ", " + tail);
      ItemsRoundTrip(items[1..], rest);
      ItemsMoreText(items, rest);
    }
  }

  lemma ItemsOneText(items: seq<Json>, rest: string)
    requires |items| == 1
    requires ParseValue(Dumps(items[0]) + ("]" + rest)) == Success((items[0], "]" + rest))
    ensures ParseElements(DumpItems(items) + "]" + rest) == Success((items, rest))
  {
    var s := DumpItems(items) + "]" + rest;
    assert DumpItems(items) == Dumps(items[0]);
    Assoc(Dumps(items[0]), "]", rest);
    ParseElementsLast(s, items, rest);
  }

  lemma ItemsMoreText(items: seq<Json>, rest: string)
    requires |items| > 1
    requires var tail := DumpItems(items[1..]) + "]" + rest;
      && ParseValue(Dumps(items[0]) + (", " + tail)) == Success((items[0], ", " + tail))
      && ParseElements(tail) == Success((items[1..], rest))
    ensures ParseElements(DumpItems(items) + "]" + rest) == Success((items, rest))
  {
    var tail := DumpItems(items[1..]) + "]" + rest;
    ItemsShape(items, rest);
    ItemsTailHead(items, rest);
    ParseElementsMore(Dumps(items[0]) + (", " + tail), items, tail, rest);
  }

  lemma ItemsTailHead(items: seq<Json>, rest: string)
    requires |items| > 1
    ensures var tail := DumpItems(items[1..]) + "]" + rest;
      |tail| > 0 && !IsJsonSpace(tail[0])
  {
    DumpItemsHead(items[1..]);
    DumpsHead(items[1]);
    HeadOf(DumpItems(items[1..]), "]");
    HeadOf(DumpItems(items[1..]) + "]", rest);
  }

  lemma ItemsShape(items: seq<Json>, rest: string)
    requires |items| > 1
    ensures DumpItems(items) + "]" + rest == Dumps(items[0]) + (", " + (DumpItems(items[1..]) + "]" + rest))
  {
    Regroup(Dumps(items[0]), ", ", DumpItems(items[1..]), "]", rest);
  }

  lemma MembersShapeOne(ms: seq<Member>, rest: string)
    requires |ms| == 1
    ensures DumpMembers(ms) + "}" + rest == DumpMember(ms[0]) + ("}" + rest)
  {
  }

  lemma MembersShape(ms: seq<Member>, rest: string)
    requires |ms| > 1
    ensures DumpMembers(ms) + "}" + rest == DumpMember(ms[0]) + (", " + (DumpMembers(ms[1..]) + "}" + rest))
  {
    Regroup(DumpMember(ms[0]), ", ", DumpMembers(ms[1..]), "}", rest);
  }

  lemma ArrShape(items: seq<Json>, rest: string)
    ensures var s := Dumps(JArr(items)) + rest;
      |s| > 0 && s[0] == '[' && s[1..] == DumpItems(items) + "]" + rest
  {
    Assoc4("[", DumpItems(items), "]", rest);
  }

  lemma ObjShape(ms: seq<Member>, rest: string)
    ensures var s := Dumps(JObj(ms)) + rest;
      |s| > 0 && s[0] == '{' && s[1..] == DumpMembers(ms) + "}" + rest
  {
    Assoc4("{", DumpMembers(ms), "}", rest);
  }

  lemma DumpMembersHead(ms: seq<Member>)
    requires |ms| > 0
    ensures |DumpMembers(ms)| > 0 && DumpMembers(ms)[0] == '"'
  {
  }

  lemma QuotedKey(key: string, t: string)
    ensures |Quote(key) + t| > 0 && (Quote(key) + t)[0] == '"'
    ensures ParseStringChars((Quote(key) + t)[1..]) == Success((key, t))
  {
    Assoc4("\"", Escape(key), "\"", t);
    assert (Quote(key) + t)[1..] == Escape(key) + "\"" + t;
    StringRoundTrip(key, t);
  }

  lemma ColonSpace(u: string)
    requires |u| > 0 && !IsJsonSpace(u[0])
    ensures (": " + u)[0] == ':'
    ensures SkipWs((": " + u)[1..]) == u
  {
    assert (": " + u)[1..] == " " + u;
    SkipOneSpace(u);
  }

  /** A quoted key, the `": "` separator and a value that parses to `v` read back as one member. */
  lemma ParseMemberText(key: string, u: string, v: Json, after: string)
    requires |u| > 0 && !IsJsonSpace(u[0])
    requires ParseValue(u) == Success((v, after))
    ensures ParseMember(Quote(key) + ": " + u) == Success((Member(key, v), after))
  {
    var t := ": " + u;
    QuotedKey(key, t);
    ColonSpace(u);
    Assoc(Quote(key), ": ", u);
    ParseMemberOf(Quote(key) + t, key, t, v, after);
  }

  /** One member's text, followed by a delimiter, reads back as that member. */
  lemma {:induction false} MemberRoundTrip(m: Member, after: string)
    requires WellFormed(m.value)
    requires Delimits(after)
    ensures ParseMember(DumpMember(m) + after) == Success((m, after))
    decreases m, 0
  {
    ValueRoundTrip(m.value, after);
    MemberText(m, after);
  }

  lemma MemberText(m: Member, after: string)
    requires ParseValue(Dumps(m.value) + after) == Success((m.value, after))
    ensures ParseMember(DumpMember(m) + after) == Success((m, after))
  {
    var u := Dumps(m.value) + after;
    Append3(Quote(m.key), ": ", Dumps(m.value), after);
    DumpsHead(m.value);
    ParseMemberText(m.key, u, m.value, after);
  }

  lemma {:induction false} MembersRoundTrip(ms: seq<Member>, rest: string)
    requires |ms| > 0
    requires forall i :: 0 <= i < |ms| ==> WellFormed(ms[i].value)
    ensures ParseMembers(DumpMembers(ms) + "}" + rest) == Success((ms, rest))
    decreases ms, 0
  {
    if |ms| == 1 {
      MemberRoundTrip(ms[0], "}" + rest);
      MembersOneText(ms, rest);
    } else {
      var tail := DumpMembers(ms[1..]) + "}" + rest;
      MemberRoundTrip(ms[0], ", " + tail);
      MembersRoundTrip(ms[1..], rest);
      MembersMoreText(ms, rest);
    }
  }

  lemma MembersOneText(ms: seq<Member>, rest: string)
    requires |ms| == 1
    requires ParseMember(DumpMember(ms[0]) + ("}" + rest)) == Success((ms[0], "}" + rest))
    ensures ParseMembers(DumpMembers(ms) + "}" + rest) == Success((ms, rest))
  {
    MembersShapeOne(ms, rest);
    ParseMembersLast(DumpMember(ms[0]) + ("}" + rest), ms, rest);
  }

  lemma MembersMoreText(ms: seq<Member>, rest: string)
    requires |ms| > 1
    requires var tail := DumpMembers(ms[1..]) + "}" + rest;
      && ParseMember(DumpMember(ms[0]) + (", " + tail)) == Success((ms[0], ", " + tail))
      && ParseMembers(tail) == Success((ms[1..], rest))
    ensures ParseMembers(DumpMembers(ms) + "}" + rest) == Success((ms, rest))
  {
    var tail := DumpMembers(ms[1..]) + "}" + rest;
    MembersShape(ms, rest);
    ParseMembersMore(DumpMember(ms[0]) + (", " + tail), ms, tail, rest);
  }

  lemma {:induction false} UpsertFresh(acc: seq<Member>, m: Member)
    requires forall i :: 0 <= i < |acc| ==> acc[i].key != m.key
    ensures Upsert(acc, m) == acc + [m]
    decreases |acc|
  {
    if |acc| > 0 {
      UpsertFresh(acc[1..], m);
      assert [acc[0]] + (acc[1..] + [m]) == acc + [m];
    }
  }

  lemma {:induction false} CollapseIntoDistinct(acc: seq<Member>, ms: seq<Member>)
    requires DistinctKeys(acc + ms)
    ensures CollapseInto(acc, ms) == acc + ms
    decreases |ms|
  {
    if |ms| > 0 {
      assert forall i :: 0 <= i < |acc| ==> acc[i].key != ms[0].key by {
        forall i | 0 <= i < |acc|
          ensures acc[i].key != ms[0].key
        {
          assert (acc + ms)[i] == acc[i];
          assert (acc + ms)[|acc|] == ms[0];
        }
      }
      UpsertFresh(acc, ms[0]);
      assert (acc + [ms[0]]) + ms[1..] == acc + ms;
      CollapseIntoDistinct(acc + [ms[0]], ms[1..]);
    }
  }

  /** For a dict with distinct keys, `dict(pairs)` is the identity. */
  lemma CollapseDistinct(ms: seq<Member>)
    requires DistinctKeys(ms)
    ensures Collapse(ms) == ms
  {
    assert [] + ms == ms;
    CollapseIntoDistinct([], ms);
  }

  /** `json.loads(json.dumps(v)) == v` for every value a Python program can hold. */
  lemma LoadsDumps(v: Json)
    requires WellFormed(v)
    ensures Loads(Dumps(v)) == Some(v)
  {
    DumpsHead(v);
    SkipWsNoSpace(Dumps(v));
    ValueRoundTrip(v, "");
    assert Dumps(v) + "" == Dumps(v);
  }
}
