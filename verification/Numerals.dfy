/**
  Numerals of any length as big.Int reads and writes them, and the conversions between decimal and
  hexadecimal token ids (utils.go). The only bases used are 10 and 16.
 */
module Numerals {
  import opened Options

  const DIGITS := "0123456789abcdef"

  predicate IsBase(b: nat) {
    b == 10 || b == 16
  }

  /** The value of a digit; letters count in either case. */
  function DigitValue(c: char): Option<nat> {
    if '0' <= c <= '9' then Some((c - '0') as int)
    else if 'a' <= c <= 'f' then Some((c - 'a') as int + 10)
    else if 'A' <= c <= 'F' then Some((c - 'A') as int + 10)
    else None
  }

  predicate IsDigit(c: char, b: nat) {
    DigitValue(c).Some? && DigitValue(c).value < b
  }

  /** The value of a string of digits; the empty string has value 0 here. */
  function Value(s: string, b: nat): Option<nat> {
    if s == "" then Some(0)
    else
      var high, c := Value(s[..|s| - 1], b), s[|s| - 1];
      if high.Some? && IsDigit(c, b) then Some(high.value * b + DigitValue(c).value) else None
  }

  /** big.Int.SetString: an optional sign, then at least one digit, then nothing. */
  function Parse(s: string, b: nat): Option<int> {
    if s == "" then None
    else
      var signed := s[0] == '-' || s[0] == '+';
      var digits := if signed then s[1..] else s;
      if digits == "" || Value(digits, b).None? then None
      else
        var v: int := Value(digits, b).value;
        Some(if s[0] == '-' then -v else v)
  }

  function TextNat(n: nat, b: nat): (s: string)
    requires IsBase(b)
    ensures |s| > 0
  {
    if n < b then [DIGITS[n]] else TextNat(n / b, b) + [DIGITS[n % b]]
  }

  /** big.Int.Text. */
  function Text(n: int, b: nat): string
    requires IsBase(b)
  {
    if n < 0 then "-" + TextNat(-n, b) else TextNat(n, b)
  }

  function HexToDec(hex: string): string {
    var n := Parse(hex, 16);
    if n.None? then "" else Text(n.value, 10)
  }

  function OpenseaTokenIDToHex(tokenID: string): Option<string> {
    var n := Parse(tokenID, 10);
    if n.None? then None else Some(Text(n.value, 16))
  }

  /** Lower-case digits without a leading zero. */
  predicate CanonicalNat(s: string, b: nat) {
    && s != ""
    && (forall i :: 0 <= i < |s| ==> IsDigit(s[i], b) && !('A' <= s[i] <= 'F'))
    && (s[0] == '0' ==> s == "0")
  }

  /** What Text writes: a canonical natural, or a minus sign and a canonical natural other than zero. */
  predicate Canonical(s: string, b: nat) {
    if s != "" && s[0] == '-' then CanonicalNat(s[1..], b) && s != "-0" else CanonicalNat(s, b)
  }

  lemma DigitOf(d: nat, b: nat)
    requires IsBase(b) && d < b
    ensures IsDigit(DIGITS[d], b) && DigitValue(DIGITS[d]) == Some(d) && !('A' <= DIGITS[d] <= 'F')
    ensures DIGITS[d] == '0' <==> d == 0
    ensures DIGITS[d] != '-' && DIGITS[d] != '+'
  {
    assert DIGITS[d] == if d < 10 then '0' + d as char else 'a' + (d - 10) as char;
  }

  lemma DigitIs(c: char, b: nat)
    requires IsBase(b) && IsDigit(c, b) && !('A' <= c <= 'F')
    ensures DIGITS[DigitValue(c).value] == c
  {
    var d := DigitValue(c).value;
    assert DIGITS[d] == if d < 10 then '0' + d as char else 'a' + (d - 10) as char;
  }

  lemma AppendIsCanonical(s: string, c: char, b: nat)
    requires CanonicalNat(s, b) && s != "0" && IsDigit(c, b) && !('A' <= c <= 'F')
    ensures CanonicalNat(s + [c], b) && (s + [c])[0] == s[0]
  {
  }

  lemma AppendValue(s: string, c: char, b: nat)
    requires Value(s, b).Some? && IsDigit(c, b)
    ensures Value(s + [c], b) == Some(Value(s, b).value * b + DigitValue(c).value)
  {
    assert (s + [c])[..|s|] == s;
  }

  lemma DivMod(n: nat, b: nat)
    requires IsBase(b) && n >= b
    ensures 0 < n / b < n && n % b < b && (n / b) * b + n % b == n
  {
  }

  lemma AppendDigit(high: nat, d: nat, b: nat)
    requires IsBase(b) && d < b && high > 0
    ensures high * b + d > 0 && TextNat(high * b + d, b) == TextNat(high, b) + [DIGITS[d]]
  {
    DigitsOf(high, d, b);
    TextNatStep(high * b + d, b);
  }

  lemma DigitsOf(high: nat, d: nat, b: nat)
    requires IsBase(b) && d < b && high > 0
    ensures high * b + d >= b && (high * b + d) / b == high && (high * b + d) % b == d
  {
    if b == 10 {
      assert high * b == high * 10;
    } else {
      assert high * b == high * 16;
    }
  }

  lemma TextNatStep(n: nat, b: nat)
    requires IsBase(b) && n >= b
    ensures TextNat(n, b) == TextNat(n / b, b) + [DIGITS[n % b]]
  {
  }

  /** What writing a natural number gives: a canonical text without a sign that has the value of the number. */
  predicate Wrote(s: string, n: nat, b: nat) {
    && CanonicalNat(s, b)
    && Value(s, b) == Some(n)
    && (s == "0" <==> n == 0)
    && s[0] != '-' && s[0] != '+'
  }

  lemma WroteDigit(n: nat, b: nat)
    requires IsBase(b) && n < b
    ensures Wrote([DIGITS[n]], n, b)
  {
    DigitOf(n, b);
    AppendValue("", DIGITS[n], b);
    assert "" + [DIGITS[n]] == [DIGITS[n]];
  }

  lemma WroteMore(s: string, high: nat, d: nat, b: nat)
    requires IsBase(b) && d < b && high > 0 && Wrote(s, high, b)
    ensures Wrote(s + [DIGITS[d]], high * b + d, b)
  {
    DigitOf(d, b);
    AppendIsCanonical(s, DIGITS[d], b);
    AppendValue(s, DIGITS[d], b);
    assert high * b > 0;
    assert |s + [DIGITS[d]]| > 1;
  }

  lemma {:induction false} TextNatIsCanonical(n: nat, b: nat)
    requires IsBase(b)
    ensures Wrote(TextNat(n, b), n, b)
  {
    if n < b {
      WroteDigit(n, b);
    } else {
      DivMod(n, b);
      TextNatIsCanonical(n / b, b);
      WroteMore(TextNat(n / b, b), n / b, n % b, b);
    }
  }

  lemma ParseUnsigned(s: string, b: nat)
    requires s != "" && s[0] != '-' && s[0] != '+' && Value(s, b).Some?
    ensures Parse(s, b) == Some(Value(s, b).value)
  {
  }

  lemma ParseNegative(s: string, b: nat)
    requires s != "" && Value(s, b).Some?
    ensures Parse("-" + s, b) == Some(-(Value(s, b).value as int))
  {
    assert ("-" + s)[1..] == s;
  }

  /** Reading what was written gives the number back, for every integer. */
  lemma ParseText(n: int, b: nat)
    requires IsBase(b)
    ensures Parse(Text(n, b), b) == Some(n) && Canonical(Text(n, b), b)
  {
    if n < 0 {
      TextNatIsCanonical(-n, b);
      NegativeParse(TextNat(-n, b), -n, b);
    } else {
      TextNatIsCanonical(n, b);
      ParseUnsigned(TextNat(n, b), b);
    }
  }

  lemma NegativeParse(s: string, n: nat, b: nat)
    requires Wrote(s, n, b) && n > 0
    ensures Parse("-" + s, b) == Some(-(n as int)) && Canonical("-" + s, b)
  {
    ParseNegative(s, b);
    assert ("-" + s)[1..] == s && "-0"[1..] == "0";
  }

  lemma PrefixIsCanonical(s: string, b: nat)
    requires CanonicalNat(s, b) && |s| > 1
    ensures CanonicalNat(s[..|s| - 1], b) && s[..|s| - 1] != "0"
    ensures IsDigit(s[|s| - 1], b) && !('A' <= s[|s| - 1] <= 'F')
  {
    assert s[..|s| - 1][0] == s[0];
  }

  lemma OneDigit(c: char, b: nat)
    requires IsBase(b) && IsDigit(c, b) && !('A' <= c <= 'F')
    ensures Value([c], b) == DigitValue(c) && TextNat(DigitValue(c).value, b) == [c]
    ensures c != '0' ==> Value([c], b).value > 0
  {
    assert [c][..0] == "";
    DigitIs(c, b);
  }

  /** Whether reading digits and writing the number gives them back; only "0" may be zero. */
  predicate ReadsBack(s: string, b: nat)
    requires IsBase(b)
  {
    && Value(s, b).Some?
    && TextNat(Value(s, b).value, b) == s
    && (s != "0" ==> Value(s, b).value > 0)
  }

  lemma {:induction false} CanonicalNatIsText(s: string, b: nat)
    requires IsBase(b) && CanonicalNat(s, b)
    ensures ReadsBack(s, b)
  {
    if |s| == 1 {
      OneDigitText(s, b);
    } else {
      PrefixIsCanonical(s, b);
      CanonicalNatIsText(s[..|s| - 1], b);
      MoreText(s, b);
    }
  }

  lemma OneDigitText(s: string, b: nat)
    requires IsBase(b) && CanonicalNat(s, b) && |s| == 1
    ensures ReadsBack(s, b)
  {
    assert s == [s[0]];
    OneDigit(s[0], b);
  }

  lemma MoreText(s: string, b: nat)
    requires IsBase(b) && CanonicalNat(s, b) && |s| > 1 && ReadsBack(s[..|s| - 1], b)
    ensures ReadsBack(s, b)
  {
    PrefixIsCanonical(s, b);
    var n := MoreValue(s, Value(s[..|s| - 1], b).value, b);
    assert s[..|s| - 1] + [s[|s| - 1]] == s;
  }

  lemma MoreValue(s: string, high: nat, b: nat) returns (n: nat)
    requires IsBase(b) && s != "" && Value(s[..|s| - 1], b) == Some(high) && high > 0
    requires IsDigit(s[|s| - 1], b) && !('A' <= s[|s| - 1] <= 'F')
    ensures Value(s, b) == Some(n) && n > 0 && TextNat(n, b) == TextNat(high, b) + [s[|s| - 1]]
  {
    var c := s[|s| - 1];
    n := high * b + DigitValue(c).value;
    WriteDigit(high, c, b);
    LastDigit(s, high, DigitValue(c).value, b);
  }

  lemma WriteDigit(high: nat, c: char, b: nat)
    requires IsBase(b) && high > 0 && IsDigit(c, b) && !('A' <= c <= 'F')
    ensures var n := high * b + DigitValue(c).value; n > 0 && TextNat(n, b) == TextNat(high, b) + [c]
  {
    AppendDigit(high, DigitValue(c).value, b);
    DigitIs(c, b);
  }

  lemma LastDigit(s: string, high: nat, d: nat, b: nat)
    requires s != "" && Value(s[..|s| - 1], b) == Some(high) && IsDigit(s[|s| - 1], b) && DigitValue(s[|s| - 1]) == Some(d)
    ensures Value(s, b) == Some(high * b + d)
  {
  }

  lemma PositiveIsText(s: string, b: nat)
    requires IsBase(b) && CanonicalNat(s, b)
    ensures Parse(s, b).Some? && Text(Parse(s, b).value, b) == s
  {
    CanonicalNatIsText(s, b);
    assert IsDigit(s[0], b);
    ParseUnsigned(s, b);
  }

  lemma NegativeIsText(s: string, b: nat)
    requires IsBase(b) && CanonicalNat(s, b) && s != "0"
    ensures Parse("-" + s, b).Some? && Text(Parse("-" + s, b).value, b) == "-" + s
  {
    CanonicalNatIsText(s, b);
    ParseNegative(s, b);
  }

  lemma CanonicalIsText(s: string, b: nat)
    requires IsBase(b) && Canonical(s, b)
    ensures Parse(s, b).Some? && Text(Parse(s, b).value, b) == s
  {
    if s[0] == '-' {
      assert s == "-" + s[1..];
      NegativeIsText(s[1..], b);
    } else {
      PositiveIsText(s, b);
    }
  }

  /** Writing what was read gives the string back exactly for canonical numerals. */
  lemma TextParseIff(s: string, b: nat)
    requires IsBase(b)
    ensures Canonical(s, b) <==> Parse(s, b).Some? && Text(Parse(s, b).value, b) == s
  {
    if Canonical(s, b) {
      CanonicalIsText(s, b);
    } else if Parse(s, b).Some? {
      ParseText(Parse(s, b).value, b);
    }
  }

  /**
    The conversions invert each other exactly on canonical numerals, of any length; on any other
    numeral the detour yields the canonical one of the same number.
   */
  lemma ConversionsInvertIff(s: string)
    ensures Canonical(s, 10) <==> OpenseaTokenIDToHex(s).Some? && HexToDec(OpenseaTokenIDToHex(s).value) == s
    ensures Canonical(s, 16) <==> OpenseaTokenIDToHex(HexToDec(s)) == Some(s)
    ensures OpenseaTokenIDToHex(s).Some? ==> HexToDec(OpenseaTokenIDToHex(s).value) == Text(Parse(s, 10).value, 10)
  {
    TextParseIff(s, 10);
    TextParseIff(s, 16);
    if Parse(s, 10).Some? {
      ParseText(Parse(s, 10).value, 16);
    }
    if Parse(s, 16).Some? {
      ParseText(Parse(s, 16).value, 10);
    }
  }

  lemma {:induction false} DecimalDigitsAsHex(n: nat)
    ensures Value(TextNat(n, 10), 16).Some?
    ensures if n < 10 then Value(TextNat(n, 10), 16).value == n else Value(TextNat(n, 10), 16).value > n
  {
    if n < 10 {
      DigitOf(n, 10);
      assert [DIGITS[n]][..0] == "";
    } else {
      DecimalDigitsAsHex(n / 10);
      DigitOf(n % 10, 10);
      var s := TextNat(n, 10);
      assert s[..|s| - 1] == TextNat(n / 10, 10);
    }
  }

  /** A decimal text read as hexadecimal names the same natural number only below ten; above, a larger one. */
  lemma DecimalReadAsHex(n: nat)
    ensures Parse(Text(n, 10), 16).Some?
    ensures if n < 10 then Parse(Text(n, 10), 16).value == n else Parse(Text(n, 10), 16).value > n
  {
    DecimalDigitsAsHex(n);
    TextNatIsCanonical(n, 10);
  }

  /** hex.EncodeToString of big.Int.Bytes: two digits a byte, and no byte at all for zero. */
  function HexOfBytes(n: nat): string {
    if n == 0 then "" else
    var s := TextNat(n, 16);
    if |s| % 2 == 0 then s else "0" + s
  }

  lemma {:induction false} LeadingZero(s: string, b: nat)
    requires IsBase(b)
    ensures Value("0" + s, b) == Value(s, b)
  {
    if s == "" {
      assert ("0" + s)[..0] == "";
    } else {
      LeadingZero(s[..|s| - 1], b);
      assert ("0" + s)[..|"0" + s| - 1] == "0" + s[..|s| - 1];
    }
  }

  /** The id word of an ERC-1155 transfer becomes the decimal text of its number, except that id zero becomes the empty string. */
  lemma ERC1155TokenIDText(n: nat)
    ensures HexToDec(HexOfBytes(n)) == if n == 0 then "" else Text(n, 10)
    ensures HexToDec(HexOfBytes(n)) == Text(n, 10) <==> n != 0
  {
    TextNatIsCanonical(n, 16);
    TextNatIsCanonical(n, 10);
    LeadingZero(TextNat(n, 16), 16);
    if n != 0 && |TextNat(n, 16)| % 2 != 0 {
      assert HexOfBytes(n)[0] == '0';
    }
  }

  /** The digits are those of hexadecimal in their order, read in either case, and each place counts the base times the next. */
  lemma DigitsInPlace(d: nat, s: string, b: nat)
    requires IsBase(b) && d < b
    ensures Text(d, b) == ["0123456789abcdef"[d]]
    ensures Parse(["0123456789abcdef"[d]], b) == Some(d) && Parse(["0123456789ABCDEF"[d]], b) == Some(d)
    ensures s != "" && s[0] != '-' && s[0] != '+' && Parse(s, b).Some? ==>
              Parse(s + ["0123456789abcdef"[d]], b) == Some(Parse(s, b).value * b + d)
    ensures s != "" && s[0] != '-' && s[0] != '+' && Parse(s, b).Some? ==>
              Parse("-" + s, b) == Some(-Parse(s, b).value) && Parse("+" + s, b) == Parse(s, b)
  {
    LowerDigit(d);
    UpperDigit(d);
    var c, u := "0123456789abcdef"[d], "0123456789ABCDEF"[d];
    assert c == DIGITS[d];
    ParseDigit(c, d, b);
    ParseDigit(u, d, b);
    if s != "" && s[0] != '-' && s[0] != '+' && Parse(s, b).Some? {
      AppendValue(s, c, b);
      assert ("-" + s)[1..] == s && ("+" + s)[1..] == s;
    }
  }

  lemma ParseDigit(c: char, d: nat, b: nat)
    requires DigitValue(c) == Some(d) && d < b && c != '-' && c != '+'
    ensures Parse([c], b) == Some(d)
  {
    AppendValue("", c, b);
    assert "" + [c] == [c];
    ParseUnsigned([c], b);
  }

  lemma LowerDigit(d: nat)
    requires d < 16
    ensures DigitValue("0123456789abcdef"[d]) == Some(d) && "0123456789abcdef"[d] != '-' && "0123456789abcdef"[d] != '+'
  {
    assert "0123456789abcdef"[d] == if d < 10 then '0' + d as char else 'a' + (d - 10) as char;
  }

  lemma UpperDigit(d: nat)
    requires d < 16
    ensures DigitValue("0123456789ABCDEF"[d]) == Some(d) && "0123456789ABCDEF"[d] != '-' && "0123456789ABCDEF"[d] != '+'
  {
    assert "0123456789ABCDEF"[d] == if d < 10 then '0' + d as char else 'A' + (d - 10) as char;
  }

  /** A text that is no numeral becomes the empty text, and has no hexadecimal form. */
  lemma NoNumeral(s: string)
    ensures Parse(s, 16).None? ==> HexToDec(s) == ""
    ensures OpenseaTokenIDToHex(s).None? <==> Parse(s, 10).None?
    ensures Parse("", 16).None? && Parse("", 10).None?
  {
  }
}
