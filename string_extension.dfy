/** The numeric parsers of `StringExtension`. The repository's two copies,
    Godot-XTension-Pack/src/Godot/StringExtension.cs and
    GodotExtensionator/src/Extensions/StringExtension.cs, share the bodies of the two
    parsers modelled here. */
module StringExtension {
  import opened Common
  import opened Text

  const HEX_CHARACTERS: string := "0123456789ABCDEF"

  /** `HEX_CHARACTERS.IndexOf(c.ToString(), CurrentCultureIgnoreCase)`: the first
      position whose character equals `c` ignoring case, or -1. Case is folded on ASCII
      letters only. */
  function HexIndex(c: char): (r: int)
    ensures -1 <= r < 16
  {
    IndexIgnoringCase(HEX_CHARACTERS, c, 0)
  }

  function IndexIgnoringCase(table: string, c: char, from: nat): (r: int)
    requires from <= |table|
    ensures r == -1 || from <= r < |table|
    ensures r >= 0 ==> LowerChar(table[r]) == LowerChar(c)
    ensures r >= 0 ==> forall i :: from <= i < r ==> LowerChar(table[i]) != LowerChar(c)
    ensures r == -1 <==> forall i :: from <= i < |table| ==> LowerChar(table[i]) != LowerChar(c)
    decreases |table| - from
  {
    if from == |table| then -1
    else if LowerChar(table[from]) == LowerChar(c) then from
    else IndexIgnoringCase(table, c, from + 1)
  }

  /** The conventional value of a hexadecimal digit in either case, -1 for anything else. */
  function HexDigitValue(c: char): (r: int)
    ensures -1 <= r < 16
  {
    if '0' <= c <= '9' then c as int - '0' as int
    else if 'A' <= c <= 'F' then c as int - 'A' as int + 10
    else if 'a' <= c <= 'f' then c as int - 'a' as int + 10
    else -1
  }

  lemma HexTable()
    ensures forall i :: 0 <= i < 10 ==> HEX_CHARACTERS[i] as int == '0' as int + i
    ensures forall i :: 10 <= i < 16 ==> HEX_CHARACTERS[i] as int == 'A' as int + i - 10
  {
    assert HEX_CHARACTERS == seq(16, i requires 0 <= i < 16 =>
      if i < 10 then ('0' as int + i) as char else ('A' as int + i - 10) as char);
  }

  lemma HexTableLower()
    ensures forall i :: 0 <= i < 10 ==> LowerChar(HEX_CHARACTERS[i]) as int == '0' as int + i
    ensures forall i :: 10 <= i < 16 ==> LowerChar(HEX_CHARACTERS[i]) as int == 'a' as int + i - 10
  {
    assert HEX_CHARACTERS == seq(16, i requires 0 <= i < 16 =>
      if i < 10 then ('0' as int + i) as char else ('A' as int + i - 10) as char);
  }

  /** Looking a character up in the table ignoring case gives its digit value. */
  lemma HexIndexIsDigitValue(c: char)
    ensures HexIndex(c) == HexDigitValue(c)
  {
    HexIndexFrom(c, 0);
  }

  /** The search from position `k` finds the digit value if it is at least `k`. */
  lemma {:induction false} HexIndexFrom(c: char, k: nat)
    requires k <= 16
    ensures IndexIgnoringCase(HEX_CHARACTERS, c, k) == if HexDigitValue(c) >= k then HexDigitValue(c) else -1
    decreases 16 - k
  {
    if k < 16 {
      HexCharMatches(c, k);
      HexIndexFrom(c, k + 1);
    }
  }

  /** Table position `k` matches `c` ignoring case iff `k` is the digit value of `c`. */
  lemma HexCharMatches(c: char, k: nat)
    requires k < 16
    ensures LowerChar(HEX_CHARACTERS[k]) == LowerChar(c) <==> HexDigitValue(c) == k
  {
    HexTableLower();
  }

  predicate IsHexString(s: string) {
    forall i :: 0 <= i < |s| ==> HexDigitValue(s[i]) >= 0
  }

  /** The value of a string of hexadecimal digits, most significant first. */
  function HexValue(s: string): (v: nat)
    requires IsHexString(s)
  {
    if s == [] then 0 else 16 * HexValue(s[..|s| - 1]) + HexDigitValue(s[|s| - 1])
  }

  function Pow16(e: nat): (r: nat)
    ensures r > 0
  {
    if e == 0 then 1 else 16 * Pow16(e - 1)
  }

  lemma HexStringCons(c: char, t: string)
    requires HexDigitValue(c) >= 0 && IsHexString(t)
    ensures IsHexString([c] + t)
  {
    var s := [c] + t;
    forall i | 0 <= i < |s| ensures HexDigitValue(s[i]) >= 0 {
      if i > 0 {
        assert s[i] == t[i - 1];
      }
    }
  }

  /** The leading digit weighs `16^(number of following digits)`. */
  lemma {:induction false} HexValueCons(c: char, t: string)
    requires HexDigitValue(c) >= 0 && IsHexString(t)
    ensures IsHexString([c] + t)
    ensures HexValue([c] + t) == HexDigitValue(c) * Pow16(|t|) + HexValue(t)
    decreases |t|
  {
    HexStringCons(c, t);
    var s := [c] + t;
    if t == [] {
      assert s == [c];
      assert s[..|s| - 1] == [];
      assert HexValue(s) == HexDigitValue(c);
      assert Pow16(|t|) == 1;
    } else {
      var init := t[..|t| - 1];
      assert IsHexString(init);
      var d := HexDigitValue(t[|t| - 1]);
      var h := HexDigitValue(c);
      var p := Pow16(|init|);
      assert s[..|s| - 1] == [c] + init;
      assert s[|s| - 1] == t[|t| - 1];
      HexValueCons(c, init);
      var u := HexValue(init);
      var w := HexValue([c] + init);
      assert w == h * p + u;
      assert HexValue(s) == 16 * w + d;
      assert HexValue(t) == 16 * u + d;
      assert Pow16(|t|) == 16 * p;
      ShiftDigit(h, p, u, d);
    }
  }

  lemma ShiftDigit(h: int, p: int, u: int, d: int)
    ensures 16 * (h * p + u) + d == h * (16 * p) + (16 * u + d)
  {
  }

  /** `DecimalFromHex`: strips the edges and sums `digit * 16^position` from the right;
      a character outside the table makes the result -1. */
  method DecimalFromHex(hex: string) returns (r: int)
    ensures var s := Trim(hex); r == if IsHexString(s) then HexValue(s) else -1
  {
    r := HexSum(Trim(hex));
  }

  /** The accumulation loop of `DecimalFromHex` over the stripped text. */
  method HexSum(s: string) returns (r: int)
    ensures r == if IsHexString(s) then HexValue(s) else -1
  {
    var decimalValue := 0;
    var power := 0;
    var i := |s|;
    while i > 0
      invariant 0 <= i <= |s|
      invariant power == |s| - i
      invariant IsHexString(s[i..])
      invariant decimalValue == HexValue(s[i..])
    {
      var value := HexIndex(s[i - 1]);
      HexIndexIsDigitValue(s[i - 1]);
      if value == -1 {
        return -1;
      }
      assert s[i - 1..] == [s[i - 1]] + s[i..];
      HexValueCons(s[i - 1], s[i..]);
      decimalValue := decimalValue + value * Pow16(power);
      power := power + 1;
      i := i - 1;
    }
    assert s[0..] == s;
    return decimalValue;
  }

  /** The value of one numeral letter; 0 for a character the table lacks. */
  function RomanSymbolValue(c: char): nat {
    match c
    case 'I' => 1
    case 'V' => 5
    case 'X' => 10
    case 'L' => 50
    case 'C' => 100
    case 'D' => 500
    case 'M' => 1000
    case _ => 0
  }

  /** What the right-to-left scan adds up for `s` when the value seen last (to the right
      of `s`) is `previous`: a symbol smaller than the one after it is subtracted. */
  function RomanScan(s: string, previous: nat): int {
    if s == [] then 0
    else
      var value := RomanSymbolValue(s[|s| - 1]);
      if value == 0 then RomanScan(s[..|s| - 1], previous)
      else (if value < previous then -(value as int) else value as int) + RomanScan(s[..|s| - 1], value)
  }

  /** The `previous` value after scanning `s` from the right, starting from `previous`. */
  function RomanLastSeen(s: string, previous: nat): nat {
    if s == [] then previous
    else
      var value := RomanSymbolValue(s[|s| - 1]);
      RomanLastSeen(s[..|s| - 1], if value == 0 then previous else value)
  }

  /** `RomanNumberToInteger`: the scan from the last character to the first, in C#'s
      unchecked `int`, so the total wraps around past the 32-bit range. */
  method RomanNumberToInteger(romanNumber: string) returns (result: int)
    ensures result == Wrap32(RomanScan(romanNumber, 0))
    ensures IsInt32(RomanScan(romanNumber, 0)) ==> result == RomanScan(romanNumber, 0)
  {
    result := 0;
    var previousValue: nat := 0;
    var i := |romanNumber|;
    assert romanNumber[..i] == romanNumber;
    while i > 0
      invariant 0 <= i <= |romanNumber|
      invariant IsInt32(result)
      invariant Wrap32(result + RomanScan(romanNumber[..i], previousValue)) == Wrap32(RomanScan(romanNumber, 0))
    {
      var index := i - 1;
      var value := RomanSymbolValue(romanNumber[index]);
      ghost var scanned := romanNumber[..i];
      assert scanned[..index] == romanNumber[..index] && scanned[index] == romanNumber[index];
      ghost var rest := RomanScan(romanNumber[..index], if value == 0 then previousValue else value);
      assert RomanScan(scanned, previousValue)
             == (if value == 0 then 0 else if value < previousValue then -(value as int) else value as int) + rest;
      if value != 0 {
        if value < previousValue {
          Wrap32Add(result - value, rest);
          result := Wrap32(result - value);
        } else {
          Wrap32Add(result + value, rest);
          result := Wrap32(result + value);
        }
        previousValue := value;
      }
      i := index;
    }
    assert Wrap32(result) == result;
  }

  /** Scanning a concatenation scans the right part first and hands its last value on. */
  lemma {:induction false} RomanScanConcat(a: string, b: string, previous: nat)
    ensures RomanScan(a + b, previous) == RomanScan(b, previous) + RomanScan(a, RomanLastSeen(b, previous))
    decreases |b|
  {
    if b == [] {
      assert a + b == a;
    } else {
      var init := b[..|b| - 1];
      assert (a + b)[..|a + b| - 1] == a + init;
      assert (a + b)[|a + b| - 1] == b[|b| - 1];
      var value := RomanSymbolValue(b[|b| - 1]);
      RomanScanConcat(a, init, if value == 0 then previous else value);
    }
  }

  /** Characters outside the numeral table are skipped. */
  function RomanSymbolsOnly(s: string): (r: string)
    ensures forall i :: 0 <= i < |r| ==> RomanSymbolValue(r[i]) > 0
  {
    if s == [] then []
    else RomanSymbolsOnly(s[..|s| - 1])
         + (if RomanSymbolValue(s[|s| - 1]) > 0 then [s[|s| - 1]] else [])
  }

  lemma {:induction false} RomanIgnoresUnknown(s: string, previous: nat)
    ensures RomanScan(s, previous) == RomanScan(RomanSymbolsOnly(s), previous)
    ensures RomanLastSeen(s, previous) == RomanLastSeen(RomanSymbolsOnly(s), previous)
    decreases |s|
  {
    if s != [] {
      var init := s[..|s| - 1];
      var c := s[|s| - 1];
      var value := RomanSymbolValue(c);
      var k := RomanSymbolsOnly(init);
      RomanIgnoresUnknown(init, if value == 0 then previous else value);
      if value > 0 {
        var r := k + [c];
        assert RomanSymbolsOnly(s) == r;
        assert r[..|r| - 1] == k;
        assert r[|r| - 1] == c;
      } else {
        assert RomanSymbolsOnly(s) == k + [];
        assert k + [] == k;
      }
    }
  }
}
