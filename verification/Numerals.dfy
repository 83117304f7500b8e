/** Decimal and hexadecimal numerals as Rust's `to_string` and `from_str_radix` treat them. */
module Numerals {
  import opened Wrappers
  import opened Bytes
  import opened Widths

  const PLUS: byte := 0x2B

  function DigitValue(c: byte, radix: nat): (v: Option<nat>) {
    var d := if 0x30 <= c <= 0x39 then c as int - 0x30
             else if 0x61 <= c <= 0x7A then c as int - 0x57
             else if 0x41 <= c <= 0x5A then c as int - 0x37
             else 36;
    if d < radix then Some(d) else None
  }

  /** `to_string`: the decimal numeral of `n`, without leading zeros. */
  function ToDecimal(n: nat): (s: Text)
    ensures |s| > 0 && s[0] != PLUS
  {
    var digit := [(0x30 + n % 10) as byte];
    if n < 10 then digit else ToDecimal(n / 10) + digit
  }

  function DigitsValue(s: Text, radix: nat): (v: Option<nat>) {
    if s == [] then Some(0) else
    match (DigitsValue(s[..|s| - 1], radix), DigitValue(s[|s| - 1], radix))
    case (Some(hi), Some(lo)) => Some(hi * radix + lo)
    case _ => None
  }

  /** `from_str_radix` for an unsigned type holding the values below `bound`:
      an optional plus sign, at least one digit, no overflow. */
  function ParseUnsigned(s: Text, radix: nat, bound: nat): (v: Option<nat>) {
    var digits := if |s| > 0 && s[0] == PLUS then s[1..] else s;
    if digits == [] then None else
    match DigitsValue(digits, radix)
    case Some(n) => if n < bound then Some(n) else None
    case None => None
  }

  lemma {:induction false} DigitsOfDecimal(n: nat)
    ensures DigitsValue(ToDecimal(n), 10) == Some(n)
  {
    var s := ToDecimal(n);
    if n < 10 {
      assert s[..|s| - 1] == [];
    } else {
      DigitsOfDecimal(n / 10);
      assert s[..|s| - 1] == ToDecimal(n / 10);
    }
  }

  /** Every number in range survives being written and parsed. */
  lemma ParseWritten(n: nat, bound: nat)
    requires n < bound
    ensures ParseUnsigned(ToDecimal(n), 10, bound) == Some(n)
  {
    DigitsOfDecimal(n);
  }

  /** `k` hexadecimal digits, lower case, with leading zeros: `{:016x}` for `k == 16`. */
  function ToHex(n: nat, k: nat): (s: Text)
    ensures |s| == k
  {
    if k == 0 then [] else ToHex(n / 16, k - 1) + [(if n % 16 < 10 then 0x30 + n % 16 else 0x57 + n % 16) as byte]
  }

  function Pow16(k: nat): (p: nat)
    ensures p > 0
  {
    if k == 0 then 1 else 16 * Pow16(k - 1)
  }

  lemma {:induction false} DigitsOfHex(n: nat, k: nat)
    requires n < Pow16(k)
    ensures DigitsValue(ToHex(n, k), 16) == Some(n)
  {
    if k > 0 {
      var s := ToHex(n, k);
      DigitsOfHex(n / 16, k - 1);
      assert s[..k - 1] == ToHex(n / 16, k - 1);
      assert DigitValue(s[k - 1], 16) == Some(n % 16);
    }
  }

  lemma {:induction false} HexStart(n: nat, k: nat)
    requires k > 0
    ensures ToHex(n, k)[0] != PLUS
  {
    if k > 1 { HexStart(n / 16, k - 1); }
  }

  /** So does every 64-bit number written as 16 hexadecimal digits. */
  lemma ParseWrittenHex(n: nat)
    requires n < U64
    ensures ParseUnsigned(ToHex(n, 16), 16, U64) == Some(n)
  {
    assert Pow16(4) == 65536;
    assert Pow16(8) == 65536 * Pow16(4);
    assert Pow16(12) == 65536 * Pow16(8);
    assert Pow16(16) == 65536 * Pow16(12);
    DigitsOfHex(n, 16);
    HexStart(n, 16);
  }
}
