/** Decimal and hexadecimal digit strings.

    Used by the text protocol parsers (nom's `digit1` + `str::parse::<u32>`
    and `hex_digit1` + `u128::from_str_radix(_, 16)`) and by the key
    display (`format!("{:032x}", k)`). */
module Digits {

  predicate IsDigit(c: char) { '0' <= c <= '9' }

  predicate IsHexDigit(c: char) { IsDigit(c) || 'a' <= c <= 'f' || 'A' <= c <= 'F' }

  predicate IsLowerHexDigit(c: char) { IsDigit(c) || 'a' <= c <= 'f' }

  predicate AllDigits(s: string) { forall i :: 0 <= i < |s| ==> IsDigit(s[i]) }

  predicate AllHexDigits(s: string) { forall i :: 0 <= i < |s| ==> IsHexDigit(s[i]) }

  predicate AllLowerHexDigits(s: string) { forall i :: 0 <= i < |s| ==> IsLowerHexDigit(s[i]) }

  function DigitValue(c: char): (d: nat)
    requires IsDigit(c)
    ensures d < 10
  {
    c as int - '0' as int
  }

  function HexDigitValue(c: char): (d: nat)
    requires IsHexDigit(c)
    ensures d < 16
  {
    if IsDigit(c) then c as int - '0' as int
    else if 'a' <= c <= 'f' then c as int - 'a' as int + 10
    else c as int - 'A' as int + 10
  }

  /** The lowercase digit for `d`. */
  function HexChar(d: nat): (c: char)
    requires d < 16
    ensures IsLowerHexDigit(c) && HexDigitValue(c) == d
  {
    if d < 10 then (d + '0' as int) as char else (d - 10 + 'a' as int) as char
  }

  function Pow10(n: nat): (r: nat)
    ensures r > 0
  {
    if n == 0 then 1 else 10 * Pow10(n - 1)
  }

  function Pow16(n: nat): (r: nat)
    ensures r > 0
  {
    if n == 0 then 1 else 16 * Pow16(n - 1)
  }

  /** The number a decimal digit string denotes (leading zeros allowed). */
  function DecValue(s: string): (v: nat)
    requires AllDigits(s)
    ensures v < Pow10(|s|)
  {
    if |s| == 0 then 0 else DecValue(s[..|s| - 1]) * 10 + DigitValue(s[|s| - 1])
  }

  /** The number a hexadecimal digit string denotes, either case. */
  function HexValue(s: string): (v: nat)
    requires AllHexDigits(s)
    ensures v < Pow16(|s|)
  {
    if |s| == 0 then 0 else HexValue(s[..|s| - 1]) * 16 + HexDigitValue(s[|s| - 1])
  }

  /** The shortest decimal form of `n` (`n.to_string()`). */
  function DecimalString(n: nat): (s: string)
    ensures |s| >= 1 && AllDigits(s)
    ensures DecValue(s) == n
    ensures s[0] == '0' ==> n == 0
  {
    var last := [(n % 10 + '0' as int) as char];
    if n < 10 then last
    else
      var s := DecimalString(n / 10) + last;
      assert s[..|s| - 1] == DecimalString(n / 10);
      s
  }

  /** `v` in exactly `width` lowercase hex digits, zero-padded on the left. */
  function LowerHex(v: nat, width: nat): (s: string)
    requires v < Pow16(width)
    ensures |s| == width && AllLowerHexDigits(s) && AllHexDigits(s)
    ensures HexValue(s) == v
  {
    if width == 0 then []
    else
      var s := LowerHex(v / 16, width - 1) + [HexChar(v % 16)];
      assert s[..|s| - 1] == LowerHex(v / 16, width - 1);
      s
  }

  /** A lowercase hex string is the zero-padded form of its own value: for a
      given width there is exactly one lowercase spelling of each value. */
  lemma {:induction false} LowerHexOfValue(s: string)
    requires AllLowerHexDigits(s) && AllHexDigits(s)
    ensures HexValue(s) < Pow16(|s|)
    ensures LowerHex(HexValue(s), |s|) == s
  {
    if |s| > 0 {
      var n := |s|;
      var pre := s[..n - 1];
      assert AllLowerHexDigits(pre) && AllHexDigits(pre);
      LowerHexOfValue(pre);
      var d := HexDigitValue(s[n - 1]);
      assert HexValue(s) / 16 == HexValue(pre) && HexValue(s) % 16 == d;
      assert HexChar(d) == s[n - 1];
      assert s == pre + [s[n - 1]];
    }
  }
}
