/** Python string built-ins the source leans on, written out over `seq<char>`:
    `str.strip`, `str.split`, `str.join`, `str.splitlines`, character removal,
    decimal formatting of integers and the `int()` constructor on text. */
module Text {
  import opened Wrappers

  // ---------------------------------------------------------------------------
  // Character classes

  /** Python's `str.isspace`: the characters `str.strip()` removes by default. */
  predicate IsSpace(c: char) {
    || c == ' ' || c == '\t' || c == '\n' || c == '\r'
    || c == '\U{000B}' || c == '\U{000C}'
    || ('\U{001C}' <= c <= '\U{001F}')
    || c == '\U{0085}' || c == '\U{00A0}' || c == '\U{1680}'
    || ('\U{2000}' <= c <= '\U{200A}')
    || c == '\U{2028}' || c == '\U{2029}' || c == '\U{202F}' || c == '\U{205F}' || c == '\U{3000}'
  }

  /** The line boundaries recognised by Python's `str.splitlines`. */
  predicate IsLineBreak(c: char) {
    || c == '\n' || c == '\r' || c == '\U{000B}' || c == '\U{000C}'
    || c == '\U{001C}' || c == '\U{001D}' || c == '\U{001E}'
    || c == '\U{0085}' || c == '\U{2028}' || c == '\U{2029}'
  }

  predicate IsDigit(c: char) {
    '0' <= c <= '9'
  }

  predicate AllDigits(s: string) {
    forall i :: 0 <= i < |s| ==> IsDigit(s[i])
  }

  predicate NoneOf(s: string, p: char -> bool) {
    forall i :: 0 <= i < |s| ==> !p(s[i])
  }

  // ---------------------------------------------------------------------------
  // strip

  /** Drops the longest prefix whose characters all satisfy `p`. */
  function TrimStart(s: string, p: char -> bool): (r: string)
    ensures |r| <= |s| && r == s[|s| - |r|..]
    ensures forall i :: 0 <= i < |s| - |r| ==> p(s[i])
    ensures |r| > 0 ==> !p(r[0])
  {
    if |s| > 0 && p(s[0]) then
      var r := TrimStart(s[1..], p);
      assert s[1..][|s| - 1 - |r|..] == s[|s| - |r|..];
      assert forall i :: 1 <= i < |s| - |r| ==> s[i] == s[1..][i - 1];
      r
    else s
  }

  /** Drops the longest suffix whose characters all satisfy `p`. */
  function TrimEnd(s: string, p: char -> bool): (r: string)
    ensures |r| <= |s| && r == s[..|r|]
    ensures forall i :: |r| <= i < |s| ==> p(s[i])
    ensures |r| > 0 ==> !p(r[|r| - 1])
  {
    if |s| > 0 && p(s[|s| - 1]) then
      var r := TrimEnd(s[..|s| - 1], p);
      assert s[..|s| - 1][..|r|] == s[..|r|];
      assert forall i :: |r| <= i < |s| - 1 ==> s[i] == s[..|s| - 1][i];
      r
    else s
  }

  lemma NoneOfConcat(a: string, b: string, p: char -> bool)
    ensures NoneOf(a + b, p) <==> NoneOf(a, p) && NoneOf(b, p)
  {
    assert forall i :: 0 <= i < |a| ==> (a + b)[i] == a[i];
    assert forall i :: 0 <= i < |b| ==> (a + b)[|a| + i] == b[i];
  }

  /** Python's `s.strip(chars)`, with the character set given as a predicate. */
  function StripBy(s: string, p: char -> bool): string {
    TrimEnd(TrimStart(s, p), p)
  }

  /** Python's `s.strip()`. */
  function Strip(s: string): string {
    StripBy(s, IsSpace)
  }

  /** A text that has neither a leading nor a trailing character in `p`
      is left as it is by `StripBy`. */
  lemma StripByUnchanged(s: string, p: char -> bool)
    requires |s| > 0 ==> !p(s[0]) && !p(s[|s| - 1])
    ensures StripBy(s, p) == s
  {
  }

  /** Stripping one more leading character of the stripped class changes nothing. */
  lemma StripByLeading(c: char, s: string, p: char -> bool)
    requires p(c)
    ensures StripBy([c] + s, p) == StripBy(s, p)
  {
    assert ([c] + s)[1..] == s;
  }

  /** A non-empty stripped text neither starts nor ends with a stripped character. */
  lemma StripByEnds(s: string, p: char -> bool)
    ensures var r := StripBy(s, p); |r| > 0 ==> !p(r[0]) && !p(r[|r| - 1])
  {
    var t := TrimStart(s, p);
    var r := TrimEnd(t, p);
    if |r| > 0 {
      assert r[0] == t[0];
    }
  }

  /** Stripping only removes characters: what the result holds, the input held. */
  lemma StripByNoneOf(s: string, p: char -> bool, q: char -> bool)
    requires NoneOf(s, q)
    ensures NoneOf(StripBy(s, p), q)
  {
    var t := TrimStart(s, p);
    var r := TrimEnd(t, p);
    forall i | 0 <= i < |r|
      ensures !q(r[i])
    {
      assert r[i] == t[i] == s[|s| - |t| + i];
    }
  }

  // ---------------------------------------------------------------------------
  // split and join

  /** Python's `sep.join(parts)`. */
  function JoinWith(parts: seq<string>, sep: string): string {
    if |parts| == 0 then ""
    else if |parts| == 1 then parts[0]
    else parts[0] + sep + JoinWith(parts[1..], sep)
  }

  /** Python's `s.split(sep)` for a one-character separator: never empty,
      no piece holds the separator, and joining the pieces gives `s` back. */
  function SplitOn(s: string, sep: char): (r: seq<string>)
    ensures |r| >= 1
    ensures forall i :: 0 <= i < |r| ==> sep !in r[i]
    ensures JoinWith(r, [sep]) == s
  {
    if |s| == 0 then [""]
    else
      var rest := SplitOn(s[1..], sep);
      if s[0] == sep then
        assert [sep] + JoinWith(rest, [sep]) == s;
        [""] + rest
      else
        var r := [[s[0]] + rest[0]] + rest[1..];
        assert r[1..] == rest[1..];
        r
  }

  /** Splitting a single piece that does not contain the separator yields that piece. */
  lemma {:induction false} SplitOnNoSep(s: string, sep: char)
    requires sep !in s
    ensures SplitOn(s, sep) == [s]
    decreases |s|
  {
    if |s| > 0 {
      SplitOnNoSep(s[1..], sep);
      assert [s[0]] + s[1..] == s;
    }
  }

  /** Splitting `a + sep + b`, where `a` holds no separator, peels `a` off the front. */
  lemma {:induction false} SplitOnCons(a: string, sep: char, b: string)
    requires sep !in a
    ensures SplitOn(a + [sep] + b, sep) == [a] + SplitOn(b, sep)
    decreases |a|
  {
    if |a| == 0 {
      assert a + [sep] + b == [sep] + b;
      assert ([sep] + b)[1..] == b;
    } else {
      var s := a + [sep] + b;
      assert s[0] == a[0] && a[0] != sep;
      assert s[1..] == a[1..] + [sep] + b;
      SplitOnCons(a[1..], sep, b);
      var rest := SplitOn(s[1..], sep);
      assert rest[0] == a[1..] && rest[1..] == SplitOn(b, sep);
      assert [a[0]] + a[1..] == a;
      assert SplitOn(s, sep) == [[s[0]] + rest[0]] + rest[1..];
    }
  }

  /** `split` undoes `join` when no piece holds the separator. */
  lemma {:induction false} SplitJoinRoundTrip(parts: seq<string>, sep: char)
    requires |parts| >= 1
    requires forall i :: 0 <= i < |parts| ==> sep !in parts[i]
    ensures SplitOn(JoinWith(parts, [sep]), sep) == parts
    decreases |parts|
  {
    if |parts| == 1 {
      SplitOnNoSep(parts[0], sep);
    } else {
      SplitJoinRoundTrip(parts[1..], sep);
      SplitOnCons(parts[0], sep, JoinWith(parts[1..], [sep]));
      assert [parts[0]] + parts[1..] == parts;
    }
  }

  /** The last piece of a split is what follows the last separator. */
  lemma {:induction false} SplitOnLast(a: string, sep: char, b: string)
    requires sep !in b
    ensures var r := SplitOn(a + [sep] + b, sep); |r| >= 2 && r[|r| - 1] == b
    decreases |a|
  {
    if |a| == 0 {
      assert a + [sep] + b == [sep] + b;
      assert ([sep] + b)[1..] == b;
      SplitOnNoSep(b, sep);
    } else {
      SplitOnLast(a[1..], sep, b);
      assert (a + [sep] + b)[1..] == a[1..] + [sep] + b;
    }
  }

  /** A joined text is free of a character class when its parts and the separator are. */
  lemma {:induction false} JoinNoneOf(parts: seq<string>, sep: string, p: char -> bool)
    requires NoneOf(sep, p)
    requires forall i :: 0 <= i < |parts| ==> NoneOf(parts[i], p)
    ensures NoneOf(JoinWith(parts, sep), p)
    decreases |parts|
  {
    if |parts| > 1 {
      JoinNoneOf(parts[1..], sep, p);
      NoneOfConcat(parts[0], sep, p);
      NoneOfConcat(parts[0] + sep, JoinWith(parts[1..], sep), p);
    }
  }

  /** Each part of a joined text is free of any class the whole text is free of. */
  lemma {:induction false} JoinNoneOfParts(parts: seq<string>, sep: string, p: char -> bool)
    requires NoneOf(JoinWith(parts, sep), p)
    ensures forall i :: 0 <= i < |parts| ==> NoneOf(parts[i], p)
    decreases |parts|
  {
    if |parts| > 1 {
      NoneOfConcat(parts[0] + sep, JoinWith(parts[1..], sep), p);
      NoneOfConcat(parts[0], sep, p);
      JoinNoneOfParts(parts[1..], sep, p);
      assert forall i :: 1 <= i < |parts| ==> parts[i] == parts[1..][i - 1];
    }
  }

  /** The pieces of a split are free of any class the text is free of. */
  lemma SplitOnNoneOf(s: string, sep: char, p: char -> bool)
    requires NoneOf(s, p)
    ensures forall i :: 0 <= i < |SplitOn(s, sep)| ==> NoneOf(SplitOn(s, sep)[i], p)
  {
    JoinNoneOfParts(SplitOn(s, sep), [sep], p);
  }

  /** A join whose first part is non-empty starts with that part's first character. */
  lemma JoinWithFirst(parts: seq<string>, sep: string)
    requires |parts| >= 1 && |parts[0]| > 0
    ensures var j := JoinWith(parts, sep); |j| > 0 && j[0] == parts[0][0]
  {
    if |parts| > 1 {
      assert JoinWith(parts, sep) == parts[0] + (sep + JoinWith(parts[1..], sep));
    }
  }

  /** A join whose last part is non-empty ends with that part's last character. */
  lemma {:induction false} JoinWithLast(parts: seq<string>, sep: string)
    requires |parts| >= 1 && |parts[|parts| - 1]| > 0
    ensures var j := JoinWith(parts, sep); var l := parts[|parts| - 1];
      |j| > 0 && j[|j| - 1] == l[|l| - 1]
    decreases |parts|
  {
    if |parts| > 1 {
      var rest := parts[1..];
      assert rest[|rest| - 1] == parts[|parts| - 1];
      JoinWithLast(rest, sep);
    }
  }

  // ---------------------------------------------------------------------------
  // character removal

  /** The characters of `s` that do not satisfy `drop`, in their original order. */
  function Without(s: string, drop: char -> bool): (r: string)
    ensures |r| <= |s|
    ensures NoneOf(r, drop)
    ensures NoneOf(s, drop) ==> r == s
  {
    if |s| == 0 then ""
    else if drop(s[0]) then Without(s[1..], drop)
    else [s[0]] + Without(s[1..], drop)
  }

  /** A character survives removal exactly when it was there and is not dropped. */
  lemma {:induction false} WithoutMembers(s: string, drop: char -> bool, c: char)
    ensures c in Without(s, drop) <==> c in s && !drop(c)
    decreases |s|
  {
    if |s| > 0 {
      WithoutMembers(s[1..], drop, c);
      assert s == [s[0]] + s[1..];
    }
  }

  /** Removal works character by character: it distributes over concatenation. */
  lemma {:induction false} WithoutConcat(a: string, b: string, drop: char -> bool)
    ensures Without(a + b, drop) == Without(a, drop) + Without(b, drop)
    decreases |a|
  {
    if |a| > 0 {
      WithoutConcat(a[1..], b, drop);
      assert (a + b)[1..] == a[1..] + b;
    } else {
      assert a + b == b;
    }
  }

  // ---------------------------------------------------------------------------
  // splitlines

  /** Splits off the first line of a non-empty text: the characters up to the
      first line boundary, and what follows that boundary (`"\r\n"` is one boundary). */
  function BreakLine(s: string): (r: (string, string))
    requires |s| > 0
    ensures |r.1| < |s|
    ensures NoneOf(r.0, IsLineBreak)
  {
    if IsLineBreak(s[0]) then
      ("", if s[0] == '\r' && |s| > 1 && s[1] == '\n' then s[2..] else s[1..])
    else if |s| == 1 then (s, "")
    else
      var (line, rest) := BreakLine(s[1..]);
      ([s[0]] + line, rest)
  }

  /** Python's `s.splitlines()`: no trailing empty line for a final boundary. */
  function SplitLines(s: string): (r: seq<string>)
    ensures forall i :: 0 <= i < |r| ==> NoneOf(r[i], IsLineBreak)
    decreases |s|
  {
    if |s| == 0 then []
    else
      var (line, rest) := BreakLine(s);
      [line] + SplitLines(rest)
  }

  /** The text of a file to which each of `lines` was appended followed by `"\n"`. */
  function LinesText(lines: seq<string>): string {
    if |lines| == 0 then "" else lines[0] + "\n" + LinesText(lines[1..])
  }

  lemma {:induction false} BreakLineOf(line: string, rest: string)
    requires NoneOf(line, IsLineBreak)
    ensures BreakLine(line + "\n" + rest) == (line, rest)
    decreases |line|
  {
    if |line| == 0 {
      assert line + "\n" + rest == ['\n'] + rest;
    } else {
      assert !IsLineBreak(line[0]);
      assert (line + "\n" + rest)[1..] == line[1..] + "\n" + rest;
      BreakLineOf(line[1..], rest);
      assert [line[0]] + line[1..] == line;
    }
  }

  /** `splitlines` recovers every line of a text written one `"\n"`-terminated line at a time. */
  lemma {:induction false} SplitLinesOfLinesText(lines: seq<string>)
    requires forall i :: 0 <= i < |lines| ==> NoneOf(lines[i], IsLineBreak)
    ensures SplitLines(LinesText(lines)) == lines
    decreases |lines|
  {
    if |lines| > 0 {
      BreakLineOf(lines[0], LinesText(lines[1..]));
      SplitLinesOfLinesText(lines[1..]);
      assert [lines[0]] + lines[1..] == lines;
    }
  }

  lemma {:induction false} LinesTextAppend(lines: seq<string>, line: string)
    ensures LinesText(lines + [line]) == LinesText(lines) + line + "\n"
    decreases |lines|
  {
    if |lines| == 0 {
      assert lines + [line] == [line];
    } else {
      assert (lines + [line])[1..] == lines[1..] + [line];
      LinesTextAppend(lines[1..], line);
    }
  }

  // ---------------------------------------------------------------------------
  // decimal integers

  function DigitChar(d: nat): (c: char)
    requires d < 10
    ensures IsDigit(c)
  {
    (48 + d) as char
  }

  function DigitValue(c: char): (d: nat)
    requires IsDigit(c)
    ensures d < 10
  {
    (c as int) - 48
  }

  /** The value of a string of decimal digits (leading zeros allowed). */
  function DecimalValue(s: string): nat
    requires AllDigits(s)
  {
    if |s| == 0 then 0 else DecimalValue(s[..|s| - 1]) * 10 + DigitValue(s[|s| - 1])
  }

  /** Python's `str(n)` for a natural number: digits, no leading zero except "0" itself. */
  function NatToDecimal(n: nat): (r: string)
    ensures |r| > 0 && AllDigits(r)
    ensures r[0] == '0' ==> n == 0 && r == "0"
    ensures DecimalValue(r) == n
  {
    if n < 10 then [DigitChar(n)]
    else
      var r := NatToDecimal(n / 10) + [DigitChar(n % 10)];
      assert r[..|r| - 1] == NatToDecimal(n / 10);
      r
  }

  /** Python's `str(i)` for an integer. */
  function IntToDecimal(i: int): string {
    if i < 0 then "-" + NatToDecimal(-i) else NatToDecimal(i)
  }

  /** Digits, optionally separated by single underscores, as Python's `int()` accepts them. */
  predicate IsDigitGroups(s: string) {
    && |s| > 0
    && IsDigit(s[0])
    && IsDigit(s[|s| - 1])
    && (forall i :: 0 <= i < |s| ==> IsDigit(s[i]) || s[i] == '_')
    && (forall i :: 0 <= i < |s| - 1 ==> s[i] == '_' ==> s[i + 1] != '_')
  }

  predicate IsUnderscore(c: char) {
    c == '_'
  }

  lemma WithoutUnderscoresDigits(s: string)
    requires forall i :: 0 <= i < |s| ==> IsDigit(s[i]) || s[i] == '_'
    ensures AllDigits(Without(s, IsUnderscore))
  {
    var r := Without(s, IsUnderscore);
    assert NoneOf(r, IsUnderscore);
    forall i | 0 <= i < |r|
      ensures IsDigit(r[i])
    {
      WithoutKeepsMembers(s, IsUnderscore, i);
    }
  }

  lemma {:induction false} WithoutKeepsMembers(s: string, drop: char -> bool, i: nat)
    requires i < |Without(s, drop)|
    ensures Without(s, drop)[i] in s
    decreases |s|
  {
    if |s| > 0 && !drop(s[0]) && i > 0 {
      WithoutKeepsMembers(s[1..], drop, i - 1);
    } else if |s| > 0 && drop(s[0]) {
      WithoutKeepsMembers(s[1..], drop, i);
    }
  }

  /** Python's `int(s)` on an already stripped text of ASCII characters:
      an optional sign followed by digit groups; `None` where Python raises `ValueError`. */
  function ParsePyInt(s: string): Option<int> {
    var neg := |s| > 0 && s[0] == '-';
    var body := if |s| > 0 && (s[0] == '+' || s[0] == '-') then s[1..] else s;
    if IsDigitGroups(body) then
      WithoutUnderscoresDigits(body);
      var n: int := DecimalValue(Without(body, IsUnderscore));
      Some(if neg then -n else n)
    else None
  }

  lemma DigitsAreGroups(digits: string)
    requires |digits| > 0 && AllDigits(digits)
    ensures IsDigitGroups(digits)
    ensures Without(digits, IsUnderscore) == digits
  {
    assert NoneOf(digits, IsUnderscore);
  }

  lemma PyIntUnsigned(digits: string)
    requires |digits| > 0 && AllDigits(digits)
    ensures ParsePyInt(digits) == Some(DecimalValue(digits))
  {
    DigitsAreGroups(digits);
  }

  lemma PyIntNegative(s: string)
    requires |s| > 1 && s[0] == '-' && AllDigits(s[1..])
    ensures ParsePyInt(s) == Some(-(DecimalValue(s[1..]) as int))
  {
    DigitsAreGroups(s[1..]);
  }

  /** `int(str(i)) == i`. */
  lemma PyIntRoundTrip(i: int)
    ensures ParsePyInt(IntToDecimal(i)) == Some(i)
  {
    var digits := NatToDecimal(if i < 0 then -i else i);
    if i < 0 {
      assert IntToDecimal(i)[1..] == digits;
      PyIntNegative(IntToDecimal(i));
    } else {
      assert IntToDecimal(i) == digits;
      PyIntUnsigned(digits);
    }
  }
}
