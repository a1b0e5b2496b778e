/** The number-to-text functions of `MathExtension` against the text-to-number
    parsers of `StringExtension`. */
module RoundTrips {
  import opened Common
  import opened Text
  import opened MathExtension
  import opened StringExtension

  /** The digits `Hexadecimal` produces are read back by `HexValue`. */
  lemma {:induction false} HexDigitsRoundTrip(n: int)
    ensures IsHexString(HexDigits(n))
    ensures HexValue(HexDigits(n)) == if n > 0 then n else 0
    decreases if n > 0 then n else 0
  {
    if n > 0 {
      HexTable();
      var s := HexDigits(n);
      var d := n % 16;
      assert s == HexDigits(n / 16) + [HEX_CHARACTERS[d]];
      assert s[..|s| - 1] == HexDigits(n / 16);
      HexDigitsRoundTrip(n / 16);
      assert HexDigitValue(HEX_CHARACTERS[d]) == d;
      forall i | 0 <= i < |s| ensures HexDigitValue(s[i]) >= 0 {
        if i < |s| - 1 {
          assert s[i] == HexDigits(n / 16)[i];
        }
      }
    }
  }

  /** `DecimalFromHex(Hexadecimal(n))` is `n` for every positive `n`, and 0 otherwise. */
  method HexadecimalRoundTrip(n: int) returns (back: int)
    ensures back == if n > 0 then n else 0
  {
    var hex := Hexadecimal(n);
    HexDigitsRoundTrip(n);
    HexTable();
    assert forall i :: 0 <= i < |hex| ==> !IsWhitespace(hex[i]);
    TrimKeepsPlainText(hex);
    back := DecimalFromHex(hex);
  }

  lemma OnesGroup(d: nat)
    requires d < 10
    ensures RomanScan(ROMAN_ONES[d], 0) == d
    ensures RomanLastSeen(ROMAN_ONES[d], 0) < 10
  {
    if d == 0 {
      assert ROMAN_ONES[0] == "";
    } else if d == 1 {
      assert ROMAN_ONES[1] == "I";
      assert "I"[..0] == "";
    } else if d == 2 {
      assert ROMAN_ONES[2] == "II";
      assert "II"[..1] == "I";
      assert "II"[..0] == "";
      assert RomanScan("I", 1) == 1 && RomanLastSeen("I", 1) == 1;
    } else if d == 3 {
      assert ROMAN_ONES[3] == "III";
      assert "III"[..2] == "II";
      assert "III"[..1] == "I";
      assert "III"[..0] == "";
      assert RomanScan("I", 1) == 1 && RomanLastSeen("I", 1) == 1;
      assert RomanScan("II", 1) == 2 && RomanLastSeen("II", 1) == 1;
    } else if d == 4 {
      assert ROMAN_ONES[4] == "IV";
      assert "IV"[..1] == "I";
      assert "IV"[..0] == "";
      assert RomanScan("I", 5) == -1 && RomanLastSeen("I", 5) == 1;
    } else if d == 5 {
      assert ROMAN_ONES[5] == "V";
      assert "V"[..0] == "";
    } else if d == 6 {
      assert ROMAN_ONES[6] == "VI";
      assert "VI"[..1] == "V";
      assert "VI"[..0] == "";
      assert RomanScan("V", 1) == 5 && RomanLastSeen("V", 1) == 5;
    } else if d == 7 {
      assert ROMAN_ONES[7] == "VII";
      assert "VII"[..2] == "VI";
      assert "VII"[..1] == "V";
      assert "VII"[..0] == "";
      assert RomanScan("V", 1) == 5 && RomanLastSeen("V", 1) == 5;
      assert RomanScan("VI", 1) == 6 && RomanLastSeen("VI", 1) == 5;
    } else if d == 8 {
      assert ROMAN_ONES[8] == "VIII";
      assert "VIII"[..3] == "VII";
      assert "VIII"[..2] == "VI";
      assert "VIII"[..1] == "V";
      assert "VIII"[..0] == "";
      assert RomanScan("V", 1) == 5 && RomanLastSeen("V", 1) == 5;
      assert RomanScan("VI", 1) == 6 && RomanLastSeen("VI", 1) == 5;
      assert RomanScan("VII", 1) == 7 && RomanLastSeen("VII", 1) == 5;
    } else if d == 9 {
      assert ROMAN_ONES[9] == "IX";
      assert "IX"[..1] == "I";
      assert "IX"[..0] == "";
      assert RomanScan("I", 10) == -1 && RomanLastSeen("I", 10) == 1;
    }
  }

  lemma TensGroup(d: nat, p: nat)
    requires d < 10 && p < 10
    ensures RomanScan(ROMAN_TENS[d], p) == 10 * d
    ensures RomanLastSeen(ROMAN_TENS[d], p) < 100
  {
    if d == 0 {
      assert ROMAN_TENS[0] == "";
    } else if d == 1 {
      assert ROMAN_TENS[1] == "X";
      assert "X"[..0] == "";
    } else if d == 2 {
      assert ROMAN_TENS[2] == "XX";
      assert "XX"[..1] == "X";
      assert "XX"[..0] == "";
      assert RomanScan("X", 10) == 10 && RomanLastSeen("X", 10) == 10;
    } else if d == 3 {
      assert ROMAN_TENS[3] == "XXX";
      assert "XXX"[..2] == "XX";
      assert "XXX"[..1] == "X";
      assert "XXX"[..0] == "";
      assert RomanScan("X", 10) == 10 && RomanLastSeen("X", 10) == 10;
      assert RomanScan("XX", 10) == 20 && RomanLastSeen("XX", 10) == 10;
    } else if d == 4 {
      assert ROMAN_TENS[4] == "XL";
      assert "XL"[..1] == "X";
      assert "XL"[..0] == "";
      assert RomanScan("X", 50) == -10 && RomanLastSeen("X", 50) == 10;
    } else if d == 5 {
      assert ROMAN_TENS[5] == "L";
      assert "L"[..0] == "";
    } else if d == 6 {
      assert ROMAN_TENS[6] == "LX";
      assert "LX"[..1] == "L";
      assert "LX"[..0] == "";
      assert RomanScan("L", 10) == 50 && RomanLastSeen("L", 10) == 50;
    } else if d == 7 {
      assert ROMAN_TENS[7] == "LXX";
      assert "LXX"[..2] == "LX";
      assert "LXX"[..1] == "L";
      assert "LXX"[..0] == "";
      assert RomanScan("L", 10) == 50 && RomanLastSeen("L", 10) == 50;
      assert RomanScan("LX", 10) == 60 && RomanLastSeen("LX", 10) == 50;
    } else if d == 8 {
      assert ROMAN_TENS[8] == "LXXX";
      assert "LXXX"[..3] == "LXX";
      assert "LXXX"[..2] == "LX";
      assert "LXXX"[..1] == "L";
      assert "LXXX"[..0] == "";
      assert RomanScan("L", 10) == 50 && RomanLastSeen("L", 10) == 50;
      assert RomanScan("LX", 10) == 60 && RomanLastSeen("LX", 10) == 50;
      assert RomanScan("LXX", 10) == 70 && RomanLastSeen("LXX", 10) == 50;
    } else if d == 9 {
      assert ROMAN_TENS[9] == "XC";
      assert "XC"[..1] == "X";
      assert "XC"[..0] == "";
      assert RomanScan("X", 100) == -10 && RomanLastSeen("X", 100) == 10;
    }
  }

  lemma HundredsGroup(d: nat, p: nat)
    requires d < 10 && p < 100
    ensures RomanScan(ROMAN_HUNDREDS[d], p) == 100 * d
    ensures RomanLastSeen(ROMAN_HUNDREDS[d], p) < 1000
  {
    if d == 0 {
      assert ROMAN_HUNDREDS[0] == "";
    } else if d == 1 {
      assert ROMAN_HUNDREDS[1] == "C";
      assert "C"[..0] == "";
    } else if d == 2 {
      assert ROMAN_HUNDREDS[2] == "CC";
      assert "CC"[..1] == "C";
      assert "CC"[..0] == "";
      assert RomanScan("C", 100) == 100 && RomanLastSeen("C", 100) == 100;
    } else if d == 3 {
      assert ROMAN_HUNDREDS[3] == "CCC";
      assert "CCC"[..2] == "CC";
      assert "CCC"[..1] == "C";
      assert "CCC"[..0] == "";
      assert RomanScan("C", 100) == 100 && RomanLastSeen("C", 100) == 100;
      assert RomanScan("CC", 100) == 200 && RomanLastSeen("CC", 100) == 100;
    } else if d == 4 {
      assert ROMAN_HUNDREDS[4] == "CD";
      assert "CD"[..1] == "C";
      assert "CD"[..0] == "";
      assert RomanScan("C", 500) == -100 && RomanLastSeen("C", 500) == 100;
    } else if d == 5 {
      assert ROMAN_HUNDREDS[5] == "D";
      assert "D"[..0] == "";
    } else if d == 6 {
      assert ROMAN_HUNDREDS[6] == "DC";
      assert "DC"[..1] == "D";
      assert "DC"[..0] == "";
      assert RomanScan("D", 100) == 500 && RomanLastSeen("D", 100) == 500;
    } else if d == 7 {
      assert ROMAN_HUNDREDS[7] == "DCC";
      assert "DCC"[..2] == "DC";
      assert "DCC"[..1] == "D";
      assert "DCC"[..0] == "";
      assert RomanScan("D", 100) == 500 && RomanLastSeen("D", 100) == 500;
      assert RomanScan("DC", 100) == 600 && RomanLastSeen("DC", 100) == 500;
    } else if d == 8 {
      assert ROMAN_HUNDREDS[8] == "DCCC";
      assert "DCCC"[..3] == "DCC";
      assert "DCCC"[..2] == "DC";
      assert "DCCC"[..1] == "D";
      assert "DCCC"[..0] == "";
      assert RomanScan("D", 100) == 500 && RomanLastSeen("D", 100) == 500;
      assert RomanScan("DC", 100) == 600 && RomanLastSeen("DC", 100) == 500;
      assert RomanScan("DCC", 100) == 700 && RomanLastSeen("DCC", 100) == 500;
    } else if d == 9 {
      assert ROMAN_HUNDREDS[9] == "CM";
      assert "CM"[..1] == "C";
      assert "CM"[..0] == "";
      assert RomanScan("C", 1000) == -100 && RomanLastSeen("C", 1000) == 100;
    }
  }

  lemma ThousandsGroup(d: nat, p: nat)
    requires d < 4 && p < 1000
    ensures RomanScan(ROMAN_THOUSANDS[d], p) == 1000 * d
  {
    if d == 0 {
      assert ROMAN_THOUSANDS[0] == "";
    } else if d == 1 {
      assert ROMAN_THOUSANDS[1] == "M";
      assert "M"[..0] == "";
    } else if d == 2 {
      assert ROMAN_THOUSANDS[2] == "MM";
      assert "MM"[..1] == "M";
      assert "MM"[..0] == "";
      assert RomanScan("M", 1000) == 1000 && RomanLastSeen("M", 1000) == 1000;
    } else if d == 3 {
      assert ROMAN_THOUSANDS[3] == "MMM";
      assert "MMM"[..2] == "MM";
      assert "MMM"[..1] == "M";
      assert "MMM"[..0] == "";
      assert RomanScan("M", 1000) == 1000 && RomanLastSeen("M", 1000) == 1000;
      assert RomanScan("MM", 1000) == 2000 && RomanLastSeen("MM", 1000) == 1000;
    }
  }

  lemma {:induction false} RomanDigitsScan(t: nat, h: nat, e: nat, o: nat)
    requires t < 4 && h < 10 && e < 10 && o < 10
    ensures RomanScan(ROMAN_THOUSANDS[t] + ROMAN_HUNDREDS[h] + ROMAN_TENS[e] + ROMAN_ONES[o], 0)
            == 1000 * t + 100 * h + 10 * e + o
  {
    var th, hu, te, on := ROMAN_THOUSANDS[t], ROMAN_HUNDREDS[h], ROMAN_TENS[e], ROMAN_ONES[o];
    OnesGroup(o);
    var l1 := RomanLastSeen(on, 0);
    RomanScanConcat(th + hu + te, on, 0);
    TensGroup(e, l1);
    var l2 := RomanLastSeen(te, l1);
    RomanScanConcat(th + hu, te, l1);
    HundredsGroup(h, l2);
    var l3 := RomanLastSeen(hu, l2);
    RomanScanConcat(th, hu, l2);
    ThousandsGroup(t, l3);
  }

  /** `RomanNumberToInteger` reads every numeral `ToRomanNumber` writes back as `|n|`. */
  lemma RomanRoundTrip(n: int)
    requires Abs(n) < 4000
    ensures RomanScan(ToRomanNumber(n).value, 0) == Abs(n)
  {
    var m := Abs(n);
    var t, h, e, o := m / 1000, m % 1000 / 100, m % 100 / 10, m % 10;
    DecimalDigits(m);
    assert ToRomanNumber(n).value
        == ROMAN_THOUSANDS[t] + ROMAN_HUNDREDS[h] + ROMAN_TENS[e] + ROMAN_ONES[o];
    RomanDigitsScan(t, h, e, o);
  }

  /** The four decimal digits that pick the table entries add back up to the number. */
  lemma DecimalDigits(m: nat)
    requires m < 4000
    ensures m / 1000 < 4 && m % 1000 / 100 < 10 && m % 100 / 10 < 10 && m % 10 < 10
    ensures 1000 * (m / 1000) + 100 * (m % 1000 / 100) + 10 * (m % 100 / 10) + m % 10 == m
  {
    var r := m % 1000;
    assert m == 1000 * (m / 1000) + r;
    assert r == 100 * (r / 100) + r % 100;
    assert r % 100 == m % 100;
    var q := m % 100;
    assert q == 10 * (q / 10) + q % 10;
    assert q % 10 == m % 10;
  }

  /** The same round trip through the two methods' own loops. */
  method RomanNumeralRoundTrip(n: int) returns (back: Option<int>)
    ensures back == if Abs(n) < 4000 then Some(Abs(n)) else None
  {
    var numeral := ToRomanNumber(n);
    if numeral.None? {
      return None;
    }
    RomanRoundTrip(n);
    var value := RomanNumberToInteger(numeral.value);
    return Some(value);
  }
}
