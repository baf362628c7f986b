/** Numbers as text: decimal, and eight hexadecimal digits behind `0x`. */
module Digits {
  import opened Bytes

  const U16: nat := 0x1_0000
  const U32: nat := 0x1_0000_0000
  const U64: nat := 0x1_0000_0000_0000_0000

  // -- decimal

  predicate IsDigit(c: char) {
    '0' <= c <= '9'
  }

  predicate AllDigits(s: string) {
    forall i :: 0 <= i < |s| ==> IsDigit(s[i])
  }

  function DigitOf(c: char): (d: nat)
    requires IsDigit(c)
    ensures d < 10
  {
    (c as int) - ('0' as int)
  }

  function DigitChar(d: nat): (c: char)
    requires d < 10
    ensures IsDigit(c) && DigitOf(c) == d
  {
    (d + '0' as int) as char
  }

  /** What a run of digits means. */
  function Value(s: string): nat
    requires AllDigits(s)
  {
    if s == [] then 0 else Value(s[..|s| - 1]) * 10 + DigitOf(s[|s| - 1])
  }

  function Decimal(n: nat): (s: string)
    ensures |s| > 0 && AllDigits(s)
  {
    if n < 10 then [DigitChar(n)] else Decimal(n / 10) + [DigitChar(n % 10)]
  }

  /** The number that a token stands for, if it is one and fits in 64 bits. */
  function ParseU64(s: string): Option<nat> {
    if s != "" && AllDigits(s) && Value(s) < U64 then Some(Value(s)) else None
  }

  lemma {:induction false} ValueOfDecimal(n: nat)
    ensures Value(Decimal(n)) == n
  {
    if n >= 10 {
      var s := Decimal(n);
      assert s[..|s| - 1] == Decimal(n / 10);
      ValueOfDecimal(n / 10);
    }
  }

  lemma DecimalRoundTrip(n: nat)
    requires n < U64
    ensures ParseU64(Decimal(n)) == Some(n)
  {
    ValueOfDecimal(n);
  }

  lemma {:induction false} ValueGrows(s: string, k: nat)
    requires AllDigits(s) && k <= |s|
    ensures Value(s[..k]) <= Value(s)
  {
    if k == |s| {
      assert s[..k] == s;
    } else {
      var t := s[..|s| - 1];
      assert t[..k] == s[..k];
      ValueGrows(t, k);
    }
  }

  /** The digit loop: its guard refuses exactly the numbers that do not fit. */
  method ReadU64(s: string) returns (r: Option<nat>)
    ensures r == ParseU64(s)
  {
    if s == "" {
      return None;
    }
    var value: nat := 0;
    for i := 0 to |s|
      invariant AllDigits(s[..i]) && value == Value(s[..i]) && value < U64
    {
      if !IsDigit(s[i]) {
        return None;
      }
      assert s[..i + 1][..i] == s[..i];
      if value > (U64 - 1 - DigitOf(s[i])) / 10 {
        if AllDigits(s) {
          ValueGrows(s, i + 1);
        }
        return None;
      }
      value := value * 10 + DigitOf(s[i]);
    }
    assert s[..|s|] == s;
    return Some(value);
  }

  function Pow10(k: nat): nat {
    if k == 0 then 1 else 10 * Pow10(k - 1)
  }

  lemma {:induction false} DecimalLength(n: nat, k: nat)
    requires k > 0 && n < Pow10(k)
    ensures |Decimal(n)| <= k
  {
    if n >= 10 {
      DecimalLength(n / 10, k - 1);
    }
  }

  lemma DecimalWidths(n: nat)
    ensures n < U64 ==> |Decimal(n)| <= 20
    ensures n < U32 ==> |Decimal(n)| <= 10
    ensures n < U16 ==> |Decimal(n)| <= 5
  {
    assert Pow10(5) == 100_000;
    assert Pow10(10) == Pow10(5) * 100_000;
    assert Pow10(15) == Pow10(10) * 100_000;
    assert Pow10(20) == Pow10(15) * 100_000;
    if n < U64 {
      DecimalLength(n, 20);
    }
    if n < U32 {
      DecimalLength(n, 10);
    }
    if n < U16 {
      DecimalLength(n, 5);
    }
  }

  // -- hexadecimal

  predicate IsHex(c: char) {
    IsDigit(c) || 'a' <= c <= 'f' || 'A' <= c <= 'F'
  }

  function HexOf(c: char): (d: nat)
    requires IsHex(c)
    ensures d < 16
  {
    if IsDigit(c) then DigitOf(c)
    else if 'a' <= c <= 'f' then (c as int) - ('a' as int) + 10
    else (c as int) - ('A' as int) + 10
  }

  function HexChar(d: nat): (c: char)
    requires d < 16
    ensures IsHex(c) && HexOf(c) == d && Lower(c) == c
  {
    if d < 10 then DigitChar(d) else (d - 10 + 'a' as int) as char
  }

  /** ASCII lower case, as far as hexadecimal digits need it. */
  function Lower(c: char): char {
    if 'A' <= c <= 'F' then ((c as int) - ('A' as int) + ('a' as int)) as char else c
  }

  function LowerAll(s: string): (r: string)
    ensures |r| == |s|
  {
    seq(|s|, i requires 0 <= i < |s| => Lower(s[i]))
  }

  predicate AllHex(s: string) {
    forall i :: 0 <= i < |s| ==> IsHex(s[i])
  }

  function HexValue(s: string): nat
    requires AllHex(s)
  {
    if s == [] then 0 else HexValue(s[..|s| - 1]) * 16 + HexOf(s[|s| - 1])
  }

  function HexDigits(n: nat, k: nat): (s: string)
    ensures |s| == k && AllHex(s) && LowerAll(s) == s
  {
    if k == 0 then [] else HexDigits(n / 16, k - 1) + [HexChar(n % 16)]
  }

  function Hex32(n: nat): (s: string)
    ensures |s| == 10
  {
    "0x" + HexDigits(n, 8)
  }

  function ParseHex32(s: string): Option<nat> {
    if |s| == 10 && s[0] == '0' && (s[1] == 'x' || s[1] == 'X') && AllHex(s[2..]) then Some(HexValue(s[2..])) else None
  }

  function Pow16(k: nat): nat {
    if k == 0 then 1 else 16 * Pow16(k - 1)
  }

  lemma HexValueOfLast(s: string, c: char)
    requires AllHex(s) && IsHex(c)
    ensures AllHex(s + [c]) && HexValue(s + [c]) == HexValue(s) * 16 + HexOf(c)
  {
    hide IsHex, HexOf;
    assert (s + [c])[..|s|] == s;
  }

  lemma {:induction false} HexValueOfDigits(n: nat, k: nat)
    requires n < Pow16(k)
    ensures HexValue(HexDigits(n, k)) == n
  {
    hide HexValue, HexOf, HexChar, IsHex, LowerAll;
    if k > 0 {
      HexValueOfDigits(n / 16, k - 1);
      HexValueOfLast(HexDigits(n / 16, k - 1), HexChar(n % 16));
    } else {
      NoHexDigits();
    }
  }

  lemma NoHexDigits()
    ensures HexValue("") == 0
  {
  }

  lemma Hex32RoundTrip(n: nat)
    requires n < U32
    ensures ParseHex32(Hex32(n)) == Some(n)
    ensures LowerAll(Hex32(n)) == Hex32(n)
  {
    assert Pow16(8) == U32;
    var s := Hex32(n);
    assert s[2..] == HexDigits(n, 8);
    HexValueOfDigits(n, 8);
    assert LowerAll(s)[2..] == LowerAll(s[2..]);
    assert LowerAll(s) == LowerAll(s)[..2] + LowerAll(s)[2..];
    assert LowerAll(s)[..2] == "0x";
  }

  /** Eight nibbles shifted into 32 bits: nothing is ever shifted out. */
  method ReadHex32(s: string) returns (r: Option<nat>)
    ensures r == ParseHex32(s)
    ensures r.Some? ==> r.value < U32
  {
    if |s| != 10 || s[0] != '0' || (s[1] != 'x' && s[1] != 'X') {
      return None;
    }
    hide IsHex, HexOf;
    var value: nat := 0;
    for i := 0 to 8
      invariant AllHex(s[2..][..i]) && value == HexValue(s[2..][..i])
      invariant value < Pow16(i) <= U32
    {
      if !IsHex(s[2..][i]) {
        return None;
      }
      NextNibble(s[2..], i);
      Pow16Small(i + 1);
      value := (value * 16) % U32 + HexOf(s[2..][i]);
    }
    assert s[2..][..8] == s[2..];
    return Some(value);
  }

  lemma NextNibble(s: string, i: nat)
    requires i < |s| && AllHex(s[..i]) && IsHex(s[i])
    ensures AllHex(s[..i + 1]) && HexValue(s[..i + 1]) == HexValue(s[..i]) * 16 + HexOf(s[i])
  {
    assert s[..i + 1][..i] == s[..i];
  }

  lemma Pow16Small(i: nat)
    requires i <= 8
    ensures Pow16(i) <= U32
  {
    assert Pow16(8) == U32;
    Pow16Grows(i, 8);
  }

  lemma {:induction false} Pow16Grows(i: nat, k: nat)
    requires i <= k
    ensures Pow16(i) <= Pow16(k)
  {
    if i < k {
      Pow16Grows(i, k - 1);
    }
  }
}
