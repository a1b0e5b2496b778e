/** The integer part of `MathExtension`. The repository carries two copies of
    these functions, Godot/Extensions/MathExtension.cs and Godot/MathExtension.cs; the
    second has the same bodies but no `IsEven`, `IsOdd` or byte packers. This one
    module models both. C# `int` parameters are
    unbounded integers here: none of the modelled functions overflows for a
    32-bit input except `Factorial`, whose wrap-around is written out. */
module MathExtension {
  import opened Common
  import opened Text
  import StringExtension

  // ---------------------------------------------------------------------
  // Sign and parity predicates

  predicate IsZero(n: int) { n == 0 }
  predicate IsNotZero(n: int) { n != 0 }
  predicate IsGreaterThanZero(n: int) { n > 0 }
  predicate IsBelowZero(n: int) { n < 0 }

  /** `number % 2 == 0` with C#'s sign-of-dividend remainder. */
  predicate IsEven(n: int) { CsRem(n, 2) == 0 }
  /** `number % 2 != 0`; for a negative odd number the C# remainder is -1. */
  predicate IsOdd(n: int) { CsRem(n, 2) != 0 }

  lemma ParityIsExact(n: int)
    ensures IsEven(n) != IsOdd(n)
    ensures IsEven(n) <==> exists k :: n == 2 * k
  {
    if n % 2 == 0 {
      assert n == 2 * (n / 2);
    }
  }

  lemma SignPredicatesPartition(n: int)
    ensures IsZero(n) != IsNotZero(n)
    ensures (if IsBelowZero(n) then 1 else 0) + (if IsZero(n) then 1 else 0)
            + (if IsGreaterThanZero(n) then 1 else 0) == 1
  {
  }

  // ---------------------------------------------------------------------
  // Range check

  /** `IsBetween(int)`: the bounds may come in either order. */
  predicate IsBetween(value: int, min: int, max: int, inclusive: bool) {
    var lo := if min <= max then min else max;
    var hi := if min <= max then max else min;
    if inclusive then lo <= value <= hi else lo < value < hi
  }

  lemma IsBetweenSymmetric(value: int, a: int, b: int, inclusive: bool)
    ensures IsBetween(value, a, b, inclusive) == IsBetween(value, b, a, inclusive)
    ensures IsBetween(value, a, b, inclusive) <==>
            if inclusive then (a <= value <= b || b <= value <= a)
            else (a < value < b || b < value < a)
  {
  }

  lemma IsBetweenEndpoints(a: int, b: int)
    ensures IsBetween(a, a, b, true) && IsBetween(b, a, b, true)
    ensures !IsBetween(a, a, b, false) && !IsBetween(b, a, b, false)
  {
  }

  // ---------------------------------------------------------------------
  // Positional notation

  function Pow(base: nat, e: nat): (r: nat)
    ensures base > 0 ==> r > 0
  {
    if e == 0 then 1 else base * Pow(base, e - 1)
  }

  /** The base-16 digits the `Hexadecimal` loop prepends, most significant first. */
  function HexDigits(n: int): (r: string)
    ensures n <= 0 <==> r == []
    ensures forall i :: 0 <= i < |r| ==> r[i] in StringExtension.HEX_CHARACTERS
    ensures n > 0 ==> r[0] != '0'
    decreases if n > 0 then n else 0
  {
    if n <= 0 then ""
    else
      var d := n % 16;
      var c := StringExtension.HEX_CHARACTERS[d];
      assert d > 0 || n >= 16 ==> n / 16 > 0 || c != '0';
      HexDigits(n / 16) + [c]
  }

  /** `Hexadecimal`: repeated division by 16, prepending the digit of each remainder. */
  method Hexadecimal(value: int) returns (hexString: string)
    ensures hexString == HexDigits(value)
  {
    var remaining := value;
    hexString := "";
    while remaining > 0
      invariant HexDigits(value) == HexDigits(remaining) + hexString
      decreases remaining
    {
      var remainderHex := remaining % 16;
      hexString := [StringExtension.HEX_CHARACTERS[remainderHex]] + hexString;
      remaining := remaining / 16;
    }
  }

  /** A positive `n` has exactly as many hexadecimal digits as `Hexadecimal` produces. */
  lemma {:induction false} HexadecimalLength(n: int)
    requires n > 0
    ensures Pow(16, |HexDigits(n)| - 1) <= n < Pow(16, |HexDigits(n)|)
    decreases n
  {
    if n >= 16 {
      HexadecimalLength(n / 16);
    }
  }

  /** The binary digits the `ToBinary` loop prepends (`n & 1`, then `n >>= 1`). */
  function BinaryDigits(n: int): (r: string)
    ensures n <= 0 <==> r == []
    ensures forall i :: 0 <= i < |r| ==> r[i] == '0' || r[i] == '1'
    ensures n > 0 ==> r[0] == '1'
    decreases if n > 0 then n else 0
  {
    if n <= 0 then "" else BinaryDigits(n / 2) + [if n % 2 == 1 then '1' else '0']
  }

  /** Reads a string of binary digits, most significant first. */
  function BinaryValue(s: string): nat
    requires forall i :: 0 <= i < |s| ==> s[i] == '0' || s[i] == '1'
  {
    if s == [] then 0 else 2 * BinaryValue(s[..|s| - 1]) + (if s[|s| - 1] == '1' then 1 else 0)
  }

  method ToBinary(number: int) returns (binaryString: string)
    ensures binaryString == BinaryDigits(number)
  {
    binaryString := "";
    var numberToTransform := number;
    while IsGreaterThanZero(numberToTransform)
      invariant BinaryDigits(number) == BinaryDigits(numberToTransform) + binaryString
      decreases numberToTransform
    {
      binaryString := (if numberToTransform % 2 == 1 then "1" else "0") + binaryString;
      numberToTransform := numberToTransform / 2;
    }
  }

  /** Reading `ToBinary`'s digits back gives the number (0 for a non-positive input). */
  lemma {:induction false} BinaryRoundTrip(n: int)
    ensures BinaryValue(BinaryDigits(n)) == if n > 0 then n else 0
    decreases if n > 0 then n else 0
  {
    if n > 0 {
      var s := BinaryDigits(n);
      assert s[..|s| - 1] == BinaryDigits(n / 2);
      BinaryRoundTrip(n / 2);
    }
  }

  // ---------------------------------------------------------------------
  // Thousand separator

  /** The string the `ThousandSeparator` loop has built after its first `i` indices:
      before index `k` it inserts the separator when `k != 0 && k % 3 == m`,
      where `m` is the text's length modulo 3. */
  function SeparatedPrefix(text: string, sep: string, m: int, i: nat): string
    requires i <= |text|
  {
    if i == 0 then ""
    else SeparatedPrefix(text, sep, m, i - 1)
         + (if i - 1 != 0 && (i - 1) % 3 == m then sep else "") + [text[i - 1]]
  }

  /** Reference grouping: a separator before every block of three characters
      counted from the right, so the first group has one to three characters. */
  function Grouped(text: string, sep: string): string {
    if |text| <= 3 then text else Grouped(text[..|text| - 3], sep) + sep + text[|text| - 3..]
  }

  method ThousandSeparator(value: int, separator: string) returns (result: string)
    ensures result == Grouped(DecimalString(value), separator)
  {
    var numberAsText := DecimalString(value);
    var mod := |numberAsText| % 3;
    result := "";
    for index := 0 to |numberAsText|
      invariant result == SeparatedPrefix(numberAsText, separator, mod, index)
    {
      if index != 0 && index % 3 == mod {
        result := result + separator;
      }
      result := result + [numberAsText[index]];
    }
    SeparatedPrefixIsGrouped(numberAsText, separator);
  }

  lemma {:induction false} SeparatedPrefixOfPrefix(text: string, sep: string, m: int, i: nat, j: nat)
    requires i <= j <= |text|
    ensures SeparatedPrefix(text, sep, m, i) == SeparatedPrefix(text[..j], sep, m, i)
  {
    if i > 0 {
      SeparatedPrefixOfPrefix(text, sep, m, i - 1, j);
    }
  }

  lemma {:induction false} SeparatedPrefixPlain(text: string, sep: string, m: int, i: nat)
    requires i <= |text|
    requires forall k :: 1 <= k < i ==> k % 3 != m
    ensures SeparatedPrefix(text, sep, m, i) == text[..i]
  {
    if i > 0 {
      SeparatedPrefixPlain(text, sep, m, i - 1);
      assert text[..i] == text[..i - 1] + [text[i - 1]];
    }
  }

  /** The loop's index rule and the right-to-left grouping agree. */
  lemma {:induction false} SeparatedPrefixIsGrouped(text: string, sep: string)
    ensures SeparatedPrefix(text, sep, |text| % 3, |text|) == Grouped(text, sep)
    decreases |text|
  {
    var n := |text|;
    var m := n % 3;
    if n <= 3 {
      NoSeparatorInFirstGroup(n);
      SeparatedPrefixPlain(text, sep, m, n);
      assert text[..n] == text;
    } else {
      var a := text[..n - 3];
      ThreeBack(n);
      SeparatedPrefixLastGroup(text, sep, m, n);
      SeparatedPrefixOfPrefix(text, sep, m, n - 3, n - 3);
      SeparatedPrefixIsGrouped(a, sep);
      assert text[n - 3..n] == text[n - 3..];
      assert Grouped(text, sep) == Grouped(a, sep) + sep + text[n - 3..n];
    }
  }

  lemma ThreeBack(n: nat)
    requires n > 3
    ensures (n - 3) % 3 == n % 3 && (n - 2) % 3 != n % 3 && (n - 1) % 3 != n % 3
  {
  }

  lemma NoSeparatorInFirstGroup(n: nat)
    requires n <= 3
    ensures forall k :: 1 <= k < n ==> k % 3 != n % 3
  {
  }

  /** The last three indices add the separator and one group of three characters. */
  lemma SeparatedPrefixLastGroup(text: string, sep: string, m: int, n: nat)
    requires 3 < n <= |text|
    requires (n - 3) % 3 == m && (n - 2) % 3 != m && (n - 1) % 3 != m
    ensures SeparatedPrefix(text, sep, m, n) == SeparatedPrefix(text, sep, m, n - 3) + sep + text[n - 3..n]
  {
    assert SeparatedPrefix(text, sep, m, n)
        == SeparatedPrefix(text, sep, m, n - 1) + [text[n - 1]];
    assert SeparatedPrefix(text, sep, m, n - 1)
        == SeparatedPrefix(text, sep, m, n - 2) + [text[n - 2]];
    assert SeparatedPrefix(text, sep, m, n - 2)
        == SeparatedPrefix(text, sep, m, n - 3) + sep + [text[n - 3]];
    assert text[n - 3..n] == [text[n - 3], text[n - 2], text[n - 1]];
  }

  /** Removes every occurrence of one character. */
  function Without(s: string, c: char): (r: string)
    ensures c !in r
  {
    if s == [] then [] else (if s[0] == c then [] else [s[0]]) + Without(s[1..], c)
  }

  lemma {:induction false} WithoutConcat(a: string, b: string, c: char)
    ensures Without(a + b, c) == Without(a, c) + Without(b, c)
  {
    if a != [] {
      assert (a + b)[0] == a[0];
      assert (a + b)[1..] == a[1..] + b;
      WithoutConcat(a[1..], b, c);
      assert Without(a + b, c) == (if a[0] == c then [] else [a[0]]) + (Without(a[1..], c) + Without(b, c));
    } else {
      assert a + b == b;
    }
  }

  lemma {:induction false} WithoutAbsent(s: string, c: char)
    requires c !in s
    ensures Without(s, c) == s
  {
    if s != [] {
      WithoutAbsent(s[1..], c);
    }
  }

  /** Deleting a one-character separator that does not occur in the text gives the text back. */
  lemma {:induction false} GroupedWithoutSeparator(text: string, c: char)
    requires c !in text
    ensures Without(Grouped(text, [c]), c) == text
    decreases |text|
  {
    if |text| <= 3 {
      WithoutAbsent(text, c);
    } else {
      var head, tail := text[..|text| - 3], text[|text| - 3..];
      assert text == head + tail;
      GroupedWithoutSeparator(head, c);
      WithoutConcat(Grouped(head, [c]) + [c], tail, c);
      WithoutConcat(Grouped(head, [c]), [c], c);
      WithoutAbsent(tail, c);
    }
  }

  /** For `n >= 0`, removing the commas of `ThousandSeparator(n)` yields `n.ToString()`,
      and the groups are a first group of one to three digits followed by groups of three. */
  lemma ThousandSeparatorDigits(n: nat)
    ensures Without(Grouped(DecimalString(n), ","), ',') == DecimalString(n)
    ensures |DecimalString(n)| > 3 ==>
            Grouped(DecimalString(n), ",")
            == Grouped(DecimalString(n)[..|DecimalString(n)| - 3], ",") + "," + DecimalString(n)[|DecimalString(n)| - 3..]
  {
    GroupedWithoutSeparator(DecimalString(n), ',');
  }

  /** The minus sign counts as a digit: `ThousandSeparator(-123)` is "-,123". */
  lemma ThousandSeparatorNegative()
    ensures Grouped(DecimalString(-123), ",") == "-,123"
  {
    assert NaturalString(1) == "1";
    assert NaturalString(12) == "12";
    assert NaturalString(123) == "123";
    assert DecimalString(-123) == "-123";
    assert "-123"[..1] == "-";
    assert "-123"[1..] == "123";
  }

  // ---------------------------------------------------------------------
  // Factorial

  function MathFactorial(n: nat): nat {
    if n == 0 then 1 else n * MathFactorial(n - 1)
  }

  /** `Factorial(int)` computed in unchecked 32-bit arithmetic. A negative input never
      reaches a base case (the recursion exhausts the stack), which is `None` here. */
  function Factorial(n: int): Option<int>
    decreases if n >= 0 then n else 0
  {
    if n == 0 || n == 1 then Some(1)
    else if n < 0 then None
    else
      match Factorial(n - 1)
      case Some(f) => Some(Wrap32(n * f))
      case None => None
  }

  lemma {:induction false} FactorialMatchesMath(n: int)
    requires 0 <= n <= 12
    ensures Factorial(n) == Some(MathFactorial(n))
    ensures MathFactorial(n) <= INT32_MAX
  {
    if n >= 2 {
      FactorialMatchesMath(n - 1);
      FactorialBound(n);
    }
  }

  lemma {:induction false} FactorialBound(n: nat)
    requires n <= 12
    ensures MathFactorial(n) <= 479001600
  {
    if n > 0 {
      FactorialBound(n - 1);
      assert MathFactorial(n) == n * MathFactorial(n - 1);
      if n < 12 {
        FactorialGrowth(n);
      }
    }
  }

  lemma FactorialGrowth(n: nat)
    requires n < 12
    ensures MathFactorial(n) * 12 <= 479001600
  {
    var f := [1, 1, 2, 6, 24, 120, 720, 5040, 40320, 362880, 3628800, 39916800];
    var k := 0;
    while k < n
      invariant 0 <= k <= n
      invariant MathFactorial(k) == f[k]
    {
      k := k + 1;
    }
  }

  /** Past 12 the product wraps: 13! = 6227020800 comes back as 1932053504. */
  lemma FactorialWrapsAt13()
    ensures Factorial(13) == Some(1932053504)
  {
    FactorialMatchesMath(12);
    assert MathFactorial(12) == 479001600 by { FactorialValue12(); }
  }

  lemma FactorialValue12()
    ensures MathFactorial(12) == 479001600
  {
    var k := 0;
    var f := 1;
    while k < 12
      invariant 0 <= k <= 12
      invariant f == MathFactorial(k)
    {
      k := k + 1;
      f := f * k;
    }
  }

  /** No negative input reaches the `0 || 1` base case. */
  lemma {:induction false} FactorialOfNegativeDiverges(n: int)
    requires n < 0
    ensures Factorial(n) == None
  {
  }

  // ---------------------------------------------------------------------
  // Roman numerals

  const ROMAN_ONES: seq<string> := ["", "I", "II", "III", "IV", "V", "VI", "VII", "VIII", "IX"]
  const ROMAN_TENS: seq<string> := ["", "X", "XX", "XXX", "XL", "L", "LX", "LXX", "LXXX", "XC"]
  const ROMAN_HUNDREDS: seq<string> := ["", "C", "CC", "CCC", "CD", "D", "DC", "DCC", "DCCC", "CM"]
  const ROMAN_THOUSANDS: seq<string> := ["", "M", "MM", "MMM"]

  predicate IsRomanSymbol(c: char) {
    c in "IVXLCDM"
  }

  function Abs(n: int): nat {
    if n < 0 then -n else n
  }

  function Repeat(c: char, k: nat): (r: string)
    ensures |r| == k && forall i :: 0 <= i < k ==> r[i] == c
  {
    if k == 0 then [] else [c] + Repeat(c, k - 1)
  }

  /** `ToRomanNumber`: the numeral of `|n|` assembled from four digit tables. From 4000
      on, the thousands index leaves its table (an `IndexOutOfRangeException`), which
      is `None` here. */
  function ToRomanNumber(n: int): (r: Option<string>)
    ensures r.Some? <==> Abs(n) < 4000
    ensures r.Some? ==> forall i :: 0 <= i < |r.value| ==> IsRomanSymbol(r.value[i])
    ensures Abs(n) == 0 ==> r == Some("")
    ensures r.Some? ==> var k := Abs(n) / 1000;
              k <= |r.value| && r.value[..k] == Repeat('M', k) && (k == |r.value| || r.value[k] != 'M')
  {
    var m := Abs(n);
    var thousands := m / 1000;
    if thousands >= |ROMAN_THOUSANDS| then None
    else
      var hundreds := m % 1000 / 100;
      var tens := m % 100 / 10;
      var ones := m % 10;
      RomanTablesWellFormed(thousands, hundreds, tens, ones);
      Some(ROMAN_THOUSANDS[thousands] + ROMAN_HUNDREDS[hundreds] + ROMAN_TENS[tens] + ROMAN_ONES[ones])
  }

  lemma RomanTablesWellFormed(t: nat, h: nat, e: nat, o: nat)
    requires t < 4 && h < 10 && e < 10 && o < 10
    ensures ROMAN_THOUSANDS[t] == Repeat('M', t)
    ensures forall i :: 0 <= i < |ROMAN_HUNDREDS[h]| ==> ROMAN_HUNDREDS[h][i] in "CDM"
    ensures ROMAN_HUNDREDS[h] != [] ==> ROMAN_HUNDREDS[h][0] != 'M'
    ensures forall i :: 0 <= i < |ROMAN_TENS[e]| ==> ROMAN_TENS[e][i] in "XLC"
    ensures forall i :: 0 <= i < |ROMAN_ONES[o]| ==> ROMAN_ONES[o][i] in "IVX"
  {
    assert Repeat('M', 1) == "M";
    assert Repeat('M', 2) == "MM";
    assert Repeat('M', 3) == "MMM";
  }

  // ---------------------------------------------------------------------
  // Ordinals

  /** `ToOrdinal`: the number's text and a suffix chosen from C# remainders. */
  function ToOrdinal(n: int): string {
    var middle := CsRem(n, 100);
    var suffix :=
      if 11 <= middle <= 13 then "th"
      else if CsRem(n, 10) == 1 then "st"
      else if CsRem(n, 10) == 2 then "nd"
      else if CsRem(n, 10) == 3 then "rd"
      else "th";
    DecimalString(n) + suffix
  }

  lemma OrdinalSuffixRule(n: nat)
    ensures var s := ToOrdinal(n); var t := DecimalString(n);
      |s| == |t| + 2 && s[..|t|] == t &&
      s[|t|..] == (if 11 <= n % 100 <= 13 then "th"
                   else if n % 10 == 1 then "st"
                   else if n % 10 == 2 then "nd"
                   else if n % 10 == 3 then "rd"
                   else "th")
  {
  }

  /** A negative number always gets "th": -1 becomes "-1th". */
  lemma NegativeOrdinalSuffix(n: int)
    requires n < 0
    ensures var s := ToOrdinal(n); |s| >= 3 && s[|s| - 2..] == "th" && s[0] == '-'
  {
  }

  // ---------------------------------------------------------------------
  // Bits and bytes

  type Byte = x: int | 0 <= x < 256

  /** Bit `i` of a byte, least significant first (`BitArray`'s order). */
  predicate BitOf(b: int, i: nat)
    decreases i
  {
    if i == 0 then b % 2 == 1 else BitOf(b / 2, i - 1)
  }

  /** The number whose bit `i` is `bits[i]`. */
  function BitsValue(bits: seq<bool>): (v: nat)
    ensures v < Pow(2, |bits|)
  {
    if bits == [] then 0 else (if bits[0] then 1 else 0) + 2 * BitsValue(bits[1..])
  }

  lemma {:induction false} BitOfBitsValue(bits: seq<bool>, i: nat)
    requires i < |bits|
    ensures BitOf(BitsValue(bits), i) == bits[i]
  {
    if i > 0 {
      var v := BitsValue(bits);
      assert v / 2 == BitsValue(bits[1..]);
      BitOfBitsValue(bits[1..], i - 1);
    }
  }

  /** `ToByte(BitArray)`: exactly eight bits, else an `ArgumentException` (`None`). */
  function BitArrayToByte(bits: seq<bool>): (r: Option<Byte>)
    ensures r.Some? <==> |bits| == 8
    ensures r.Some? ==> forall i :: 0 <= i < 8 ==> BitOf(r.value, i) == bits[i]
  {
    if |bits| != 8 then None
    else
      assert Pow(2, 8) == 256;
      forall i | 0 <= i < 8 ensures BitOf(BitsValue(bits), i) == bits[i] {
        BitOfBitsValue(bits, i);
      }
      Some(BitsValue(bits))
  }

  /** `ToBits`: the eight bits of a byte, least significant first. */
  function ToBits(b: Byte): (r: seq<bool>)
    ensures |r| == 8 && forall i :: 0 <= i < 8 ==> r[i] == BitOf(b, i)
  {
    seq(8, i requires 0 <= i < 8 => BitOf(b, i))
  }

  /** `ToByte(bool[])`: element `i` becomes bit `i`, missing bits stay clear; more than
      eight bools raise an `ArgumentException` (`None`). */
  method BoolsToByte(bools: seq<bool>) returns (r: Option<Byte>)
    ensures r.None? <==> |bools| > 8
    ensures r.Some? ==> forall i :: 0 <= i < 8 ==> BitOf(r.value, i) == (i < |bools| && bools[i])
  {
    if |bools| > 8 {
      return None;
    }
    var total := new bool[8](_ => false);
    for i := 0 to |bools|
      invariant forall k :: 0 <= k < 8 ==> total[k] == (k < i && bools[k])
    {
      total[i] := bools[i];
    }
    r := BitArrayToByte(total[..]);
  }

  /** `ByteToBools(b, length)`: the first `length` bits of `b`. A negative length fails
      allocating the array and a length over eight indexes past the eight bits. */
  method ByteToBools(b: Byte, length: int) returns (r: Option<seq<bool>>)
    ensures r.None? <==> length < 0 || length > 8
    ensures r.Some? ==> |r.value| == length && forall i :: 0 <= i < length ==> r.value[i] == BitOf(b, i)
  {
    if length < 0 {
      return None;
    }
    var bools := new bool[length];
    var bits := ToBits(b);
    for i := 0 to length
      invariant i <= 8
      invariant forall k :: 0 <= k < i ==> bools[k] == BitOf(b, k)
    {
      if i >= |bits| {
        return None;
      }
      bools[i] := bits[i];
    }
    return Some(bools[..]);
  }

  /** Packing up to eight bools and unpacking as many gives them back. */
  method PackUnpackRoundTrip(bools: seq<bool>) returns (back: Option<seq<bool>>)
    requires |bools| <= 8
    ensures back == Some(bools)
  {
    var packed := BoolsToByte(bools);
    back := ByteToBools(packed.value, |bools|);
    assert back.value == bools;
  }
}
