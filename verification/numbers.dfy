/**
 * Decimal text <-> integers: Rust's `str::parse::<i16 | i32 | u32>()`, `to_string()` on integers
 * and the two-digit zero padding of chrono's `%H` / `%M`.
 */
module Numbers {
  import opened Common

  const I16_MIN: int := -32768
  const I16_MAX: int := 32767
  const I32_MIN: int := -0x8000_0000
  const I32_MAX: int := 0x7FFF_FFFF
  const U32_MAX: int := 0xFFFF_FFFF

  predicate IsAsciiDigit(c: char) {
    '0' <= c <= '9'
  }

  predicate AllDigits(s: string) {
    forall i :: 0 <= i < |s| ==> IsAsciiDigit(s[i])
  }

  function DigitValue(c: char): (v: nat)
    requires IsAsciiDigit(c)
    ensures v < 10
  {
    c as int - '0' as int
  }

  function DigitChar(v: nat): (c: char)
    requires v < 10
    ensures IsAsciiDigit(c) && DigitValue(c) == v
  {
    ('0' as int + v) as char
  }

  /** The number a string of decimal digits denotes (most significant digit first). */
  function Value(s: string): nat
    requires AllDigits(s)
  {
    if |s| == 0 then 0 else 10 * Value(s[..|s| - 1]) + DigitValue(s[|s| - 1])
  }

  function Pow10(n: nat): (p: nat)
    ensures p >= 1
  {
    if n == 0 then 1 else 10 * Pow10(n - 1)
  }

  /** Multiplication by a natural number keeps order. */
  lemma MulMonotone(x: nat, y: nat, k: nat)
    requires x <= y
    ensures x * k <= y * k
  {
  }

  /** A digit string of length n denotes a number below 10^n. */
  lemma {:induction false} ValueBound(s: string)
    requires AllDigits(s)
    ensures Value(s) < Pow10(|s|)
  {
    if |s| > 0 {
      ValueBound(s[..|s| - 1]);
    }
  }

  /** Value of a digit string split after its first digit. */
  lemma {:induction false} ValueHead(s: string)
    requires AllDigits(s) && |s| > 0
    ensures Value(s) == DigitValue(s[0]) * Pow10(|s| - 1) + Value(s[1..])
  {
    if |s| > 1 {
      ValueHead(s[..|s| - 1]);
      assert s[..|s| - 1][1..] == s[1..][..|s| - 2];
    }
  }

  /** Leading zeros do not change the value. */
  lemma {:induction false} ValueLeadingZeros(z: string, s: string)
    requires AllDigits(s) && forall i :: 0 <= i < |z| ==> z[i] == '0'
    ensures AllDigits(z + s) && Value(z + s) == Value(s)
    decreases |z|
  {
    if |z| > 0 {
      ValueLeadingZeros(z[1..], s);
      assert (z + s)[1..] == z[1..] + s;
      assert AllDigits(z + s) by {
        forall i | 0 <= i < |z + s| ensures IsAsciiDigit((z + s)[i]) {
          if i > 0 { assert (z + s)[i] == (z[1..] + s)[i - 1]; }
        }
      }
      ValueHead(z + s);
      assert (z + s)[0] == '0';
    } else {
      assert z + s == s;
    }
  }

  /** The canonical decimal form of a natural number. */
  function NatToDecimal(n: nat): (s: string)
    ensures |s| > 0 && AllDigits(s)
    ensures Value(s) == n
    ensures n > 0 ==> s[0] != '0'
  {
    if n < 10 then [DigitChar(n)]
    else
      var p := NatToDecimal(n / 10);
      var s := p + [DigitChar(n % 10)];
      assert s[..|s| - 1] == p;
      s
  }

  /** Rust's `to_string()` on an integer. */
  function IntToDecimal(x: int): (s: string)
    ensures |s| > 0
  {
    if x < 0 then "-" + NatToDecimal(-x) else NatToDecimal(x)
  }

  /** Rust's `FromStr` for a primitive integer type with range [lo, hi]: an optional '+'
      (or '-' for a signed type) followed by at least one ASCII digit and nothing else,
      the value lying in range. */
  function ParseInt(s: string, lo: int, hi: int, signed: bool): (r: Option<int>)
    ensures r.Some? ==> lo <= r.value <= hi
    ensures |s| == 0 ==> r.None?
  {
    if |s| == 0 then None
    else
      var negative := signed && s[0] == '-';
      var digits := if s[0] == '+' || negative then s[1..] else s;
      if |digits| == 0 || !AllDigits(digits) then None
      else
        var v: int := if negative then -(Value(digits) as int) else Value(digits);
        if lo <= v <= hi then Some(v) else None
  }

  function ParseI16(s: string): Option<int> { ParseInt(s, I16_MIN, I16_MAX, true) }
  function ParseI32(s: string): Option<int> { ParseInt(s, I32_MIN, I32_MAX, true) }
  function ParseU32(s: string): Option<int> { ParseInt(s, 0, U32_MAX, false) }

  /** Parsing what `to_string` printed gives the number back, for every value of the type. */
  lemma ParseIntToDecimal(x: int, lo: int, hi: int, signed: bool)
    requires lo <= x <= hi
    requires signed || x >= 0
    ensures ParseInt(IntToDecimal(x), lo, hi, signed) == Some(x)
  {
    var s := IntToDecimal(x);
    if x < 0 {
      assert s[1..] == NatToDecimal(-x);
    } else {
      assert s[0] != '-' && s[0] != '+';
    }
  }

  /** The text `parse::<u32>()` accepts are exactly the optionally '+'-signed digit strings
      whose value fits in 32 bits. */
  lemma ParseU32Accepts(s: string)
    ensures ParseU32(s).Some? <==>
      exists d :: (s == d || s == "+" + d) && |d| > 0 && AllDigits(d) && Value(d) <= U32_MAX
  {
    if ParseU32(s).Some? {
      var d := if s[0] == '+' then s[1..] else s;
      assert s == d || s == "+" + d;
    }
    if exists d :: (s == d || s == "+" + d) && |d| > 0 && AllDigits(d) && Value(d) <= U32_MAX {
      var d :| (s == d || s == "+" + d) && |d| > 0 && AllDigits(d) && Value(d) <= U32_MAX;
      if s == "+" + d {
        assert s[1..] == d;
      } else {
        assert s[0] != '+' && s[0] != '-';
      }
    }
  }

  /** A number below 10^w has at most w decimal digits. */
  lemma DecimalLength(n: nat, w: nat)
    requires w > 0 && n < Pow10(w)
    ensures |NatToDecimal(n)| <= w
  {
    var d := NatToDecimal(n);
    if |d| > w {
      DigitsLowerBound(d);
      PowMonotone(w, |d| - 1);
    }
  }

  /** A digit string without a leading zero denotes at least 10^(length - 1). */
  lemma {:induction false} DigitsLowerBound(s: string)
    requires AllDigits(s) && |s| > 0 && s[0] != '0'
    ensures Value(s) >= Pow10(|s| - 1)
  {
    ValueHead(s);
    assert DigitValue(s[0]) >= 1;
    MulMonotone(1, DigitValue(s[0]), Pow10(|s| - 1));
  }

  lemma {:induction false} PowMonotone(a: nat, b: nat)
    requires a <= b
    ensures Pow10(a) <= Pow10(b)
    decreases b
  {
    if a < b {
      PowMonotone(a, b - 1);
    }
  }

  /** `n` zeros. */
  function Zeros(n: nat): (z: string)
    ensures |z| == n && forall i :: 0 <= i < n ==> z[i] == '0'
  {
    if n == 0 then [] else Zeros(n - 1) + "0"
  }

  /** `format!("{:0width$}", n)`: the decimal form, left-padded with '0' to `width`. */
  function PadZeros(n: nat, width: nat): (s: string)
    ensures AllDigits(s) && Value(s) == n
    ensures |s| >= width
    ensures |NatToDecimal(n)| <= width ==> |s| == width
  {
    var d := NatToDecimal(n);
    if |d| >= width then d
    else
      ValueLeadingZeros(Zeros(width - |d|), d);
      Zeros(width - |d|) + d
  }

  /** chrono's two-digit zero-padded rendering of an hour or a minute (`%H`, `%M`). */
  function Pad2(n: nat): (s: string)
    requires n < 100
    ensures |s| == 2 && AllDigits(s) && Value(s) == n
  {
    var s := [DigitChar(n / 10), DigitChar(n % 10)];
    assert s[..1] == [s[0]] && [s[0]][..0] == [];
    assert Value(s[..1]) == n / 10;
    s
  }
}
