/** The pieces of .NET string behaviour that the modelled code relies on:
    `string.Trim()` (which Godot's `StripEdges()` calls), ASCII case folding
    and `int.ToString()`. */
module Text {

  /** The characters `char.IsWhiteSpace` accepts, which `Trim()` removes. */
  predicate IsWhitespace(c: char) {
    c == ' ' || ('\t' <= c <= '\r') || c == '\U{0085}' || c == '\U{00A0}' || c == '\U{1680}'
    || ('\U{2000}' <= c <= '\U{200A}') || c == '\U{2028}' || c == '\U{2029}' || c == '\U{202F}'
    || c == '\U{205F}' || c == '\U{3000}'
  }

  /** The number of whitespace characters `TrimStart()` removes. */
  function LeadingWhitespace(s: string): (n: nat)
    ensures n <= |s|
    ensures n < |s| ==> !IsWhitespace(s[n])
  {
    if s == [] || !IsWhitespace(s[0]) then 0 else 1 + LeadingWhitespace(s[1..])
  }

  /** The number of whitespace characters `TrimEnd()` removes. */
  function TrailingWhitespace(s: string): (n: nat)
    ensures n <= |s|
    ensures n < |s| ==> !IsWhitespace(s[|s| - 1 - n])
  {
    if s == [] || !IsWhitespace(s[|s| - 1]) then 0 else 1 + TrailingWhitespace(s[..|s| - 1])
  }

  /** What `TrimStart()` removes is whitespace only. */
  lemma {:induction false} LeadingWhitespaceIsWhitespace(s: string)
    ensures forall i :: 0 <= i < LeadingWhitespace(s) ==> IsWhitespace(s[i])
    decreases |s|
  {
    if s != [] && IsWhitespace(s[0]) {
      LeadingWhitespaceIsWhitespace(s[1..]);
      assert forall i :: 1 <= i < LeadingWhitespace(s) ==> s[i] == s[1..][i - 1];
    }
  }

  /** What `TrimEnd()` removes is whitespace only. */
  lemma {:induction false} TrailingWhitespaceIsWhitespace(s: string)
    ensures forall i :: |s| - TrailingWhitespace(s) <= i < |s| ==> IsWhitespace(s[i])
    decreases |s|
  {
    if s != [] && IsWhitespace(s[|s| - 1]) {
      TrailingWhitespaceIsWhitespace(s[..|s| - 1]);
      assert forall i :: |s| - TrailingWhitespace(s) <= i < |s| - 1 ==> s[i] == s[..|s| - 1][i];
    }
  }

  function TrimStart(s: string): string {
    s[LeadingWhitespace(s)..]
  }

  function TrimEnd(s: string): string {
    s[..|s| - TrailingWhitespace(s)]
  }

  /** `Trim()`: drops leading and trailing whitespace. */
  function Trim(s: string): string {
    TrimEnd(TrimStart(s))
  }

  /** `Trim()` leaves neither end on whitespace. */
  lemma TrimEdges(s: string)
    ensures Trim(s) == [] || (!IsWhitespace(Trim(s)[0]) && !IsWhitespace(Trim(s)[|Trim(s)| - 1]))
  {
    var t := TrimStart(s);
    var r := TrimEnd(t);
    if r != [] {
      assert r[0] == s[LeadingWhitespace(s)];
      assert r[|r| - 1] == t[|t| - 1 - TrailingWhitespace(t)];
    }
  }

  /** Text without whitespace is left as it is. */
  lemma TrimKeepsPlainText(s: string)
    requires forall i :: 0 <= i < |s| ==> !IsWhitespace(s[i])
    ensures Trim(s) == s
  {
    assert LeadingWhitespace(s) == 0;
    assert TrimStart(s) == s;
    assert TrailingWhitespace(s) == 0;
  }

  /** Lower-cases ASCII letters and leaves every other character alone. */
  function LowerChar(c: char): (r: char)
    ensures 'A' <= c <= 'Z' ==> 'a' <= r <= 'z'
    ensures !('A' <= c <= 'Z') ==> r == c
  {
    if 'A' <= c <= 'Z' then (c as int - 'A' as int + 'a' as int) as char else c
  }

  function ToLower(s: string): (r: string)
    ensures |r| == |s|
    ensures forall i :: 0 <= i < |s| ==> r[i] == LowerChar(s[i])
  {
    if s == [] then [] else [LowerChar(s[0])] + ToLower(s[1..])
  }

  /** Case-insensitive equality, as `EqualsIgnoreCase` is used by the autoloads. */
  predicate EqualsIgnoreCase(a: string, b: string) {
    ToLower(a) == ToLower(b)
  }

  predicate IsDigit(c: char) {
    '0' <= c <= '9'
  }

  function DigitChar(d: int): (c: char)
    requires 0 <= d < 10
    ensures IsDigit(c) && c as int - '0' as int == d
  {
    ('0' as int + d) as char
  }

  /** Decimal digits of a natural number, most significant first. */
  function NaturalString(n: nat): (r: string)
    ensures |r| >= 1
    ensures forall i :: 0 <= i < |r| ==> IsDigit(r[i])
    ensures n > 0 ==> r[0] != '0'
    ensures n < 10 <==> |r| == 1
  {
    if n < 10 then [DigitChar(n)] else NaturalString(n / 10) + [DigitChar(n % 10)]
  }

  /** `int.ToString()` with the invariant culture's minus sign. */
  function DecimalString(n: int): (r: string)
    ensures n >= 0 ==> r == NaturalString(n)
    ensures n < 0 ==> r == "-" + NaturalString(-n)
  {
    if n < 0 then "-" + NaturalString(-n) else NaturalString(n)
  }

  /** Reads a string of decimal digits back as a number. */
  function DigitsValue(s: string): int
    requires forall i :: 0 <= i < |s| ==> IsDigit(s[i])
  {
    if s == [] then 0 else 10 * DigitsValue(s[..|s| - 1]) + (s[|s| - 1] as int - '0' as int)
  }

  lemma {:induction false} NaturalStringRoundTrip(n: nat)
    ensures DigitsValue(NaturalString(n)) == n
  {
    if n >= 10 {
      var s := NaturalString(n);
      assert s[..|s| - 1] == NaturalString(n / 10);
      NaturalStringRoundTrip(n / 10);
    }
  }
}
