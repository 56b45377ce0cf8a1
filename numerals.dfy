/** Unsigned 32-bit values and decimal text, as Rust's `u32`, `str::parse::<u32>`
    and `{}` formatting of integers treat them. */
module Numerals {
  import opened Wrappers

  const U32_LIMIT: nat := 0x1_0000_0000

  /** Rust's `u32`. */
  type U32 = n: nat | n < U32_LIMIT

  /** An ASCII decimal digit. */
  predicate IsDigit(c: char) {
    '0' <= c <= '9'
  }

  predicate AllDigits(s: string) {
    forall i :: 0 <= i < |s| ==> IsDigit(s[i])
  }

  function DigitValue(c: char): (d: nat)
    requires IsDigit(c)
    ensures d < 10
  {
    c as int - '0' as int
  }

  function DigitChar(d: nat): (c: char)
    requires d < 10
    ensures IsDigit(c) && DigitValue(c) == d
  {
    ('0' as int + d) as char
  }

  function Pow10(n: nat): (r: nat)
    ensures r >= 1
  {
    if n == 0 then 1 else 10 * Pow10(n - 1)
  }

  /** The number a string of decimal digits denotes (leading zeros allowed). */
  function DigitsValue(s: string): (r: nat)
    requires AllDigits(s)
    ensures r < Pow10(|s|)
  {
    if |s| == 0 then 0
    else
      var init := s[..|s| - 1];
      assert AllDigits(init);
      var v := DigitsValue(init);
      assert v * 10 <= (Pow10(|s| - 1) - 1) * 10;
      v * 10 + DigitValue(s[|s| - 1])
  }

  /** `d` is decimal text of `n` as Rust's `{}` prints it: at least one
      digit, and no leading zero unless the number is 0 itself. */
  predicate Decimal(d: string, n: nat) {
    |d| >= 1 && AllDigits(d) && DigitsValue(d) == n && (d[0] == '0' ==> |d| == 1)
  }

  /** Decimal text of `n` with no padding, as Rust's `{}` prints an integer. */
  function NatToString(n: nat): (s: string)
    ensures |s| >= 1 && AllDigits(s)
    ensures s[0] == '0' ==> n == 0 && |s| == 1
    decreases n
  {
    if n < 10 then [DigitChar(n)] else NatToString(n / 10) + [DigitChar(n % 10)]
  }

  /** The last `w` decimal digits of `n`, zero-padded on the left, as Rust's
      `{:0w}` prints a number below 10^w. */
  function PaddedDigits(n: nat, w: nat): (s: string)
    ensures |s| == w && AllDigits(s)
  {
    if w == 0 then [] else PaddedDigits(n / 10, w - 1) + [DigitChar(n % 10)]
  }

  /** A number below 10^w survives zero-padded printing to width w. */
  lemma {:induction false} PaddedDigitsValue(n: nat, w: nat)
    requires n < Pow10(w)
    ensures DigitsValue(PaddedDigits(n, w)) == n
  {
    if w > 0 {
      PaddedDigitsValue(n / 10, w - 1);
      assert PaddedDigits(n, w)[..w - 1] == PaddedDigits(n / 10, w - 1);
    }
  }

  /** Printing then reading back gives the number. */
  lemma {:induction false} NatToStringValue(n: nat)
    ensures DigitsValue(NatToString(n)) == n
    decreases n
  {
    if n < 10 {
      assert NatToString(n)[..0] == [];
    } else {
      var p := NatToString(n / 10);
      NatToStringValue(n / 10);
      assert NatToString(n)[..|NatToString(n)| - 1] == p;
    }
  }

  /** The printed text of `n` is canonical decimal text. */
  lemma NatToStringDecimal(n: nat)
    ensures Decimal(NatToString(n), n)
  {
    NatToStringValue(n);
  }

  /** A number of exactly w digits prints as its w-digit zero-padded text. */
  lemma {:induction false} NatToStringPadded(n: nat, w: nat)
    requires 1 <= w && Pow10(w - 1) <= n < Pow10(w)
    ensures NatToString(n) == PaddedDigits(n, w)
    decreases w
  {
    if w == 1 {
      assert n < 10;
      assert PaddedDigits(n / 10, 0) == [];
    } else {
      assert n >= 10;
      assert Pow10(w - 2) <= n / 10 < Pow10(w - 1);
      NatToStringPadded(n / 10, w - 1);
    }
  }

  /** A number below 10^w prints in at most w digits. */
  lemma {:induction false} NatToStringWithin(n: nat, w: nat)
    requires 1 <= w && n < Pow10(w)
    ensures |NatToString(n)| <= w
    decreases w
  {
    if n >= 10 {
      assert w >= 2;
      NatToStringWithin(n / 10, w - 1);
    }
  }

  /** `s` without the single leading '+' that Rust's unsigned parser accepts. */
  function UnsignedDigits(s: string): string {
    if |s| > 1 && s[0] == '+' then s[1..] else s
  }

  /** Rust's `str::parse::<u32>`: an optional leading '+', then at least one
      ASCII digit, with a value below 2^32; anything else is an error. */
  function ParseU32(s: string): (r: Option<U32>)
    ensures r.Some? ==> (|s| >= 1 && AllDigits(s)) || (|s| >= 2 && s[0] == '+' && AllDigits(s[1..]))
    ensures |s| >= 1 && AllDigits(s) ==> (r.Some? <==> DigitsValue(s) < U32_LIMIT)
    ensures |s| >= 1 && AllDigits(s) && r.Some? ==> r.value == DigitsValue(s)
    ensures |s| >= 2 && s[0] == '+' && AllDigits(s[1..]) ==> (r.Some? <==> DigitsValue(s[1..]) < U32_LIMIT)
    ensures |s| >= 2 && s[0] == '+' && AllDigits(s[1..]) && r.Some? ==> r.value == DigitsValue(s[1..])
  {
    var d := UnsignedDigits(s);
    if |d| == 0 || !AllDigits(d) then None
    else if DigitsValue(d) >= U32_LIMIT then None
    else Some(DigitsValue(d))
  }

  /** Every `u32` printed in decimal parses back to itself. */
  lemma ParseU32RoundTrip(n: U32)
    ensures ParseU32(NatToString(n)) == Some(n)
  {
    NatToStringValue(n);
    var s := NatToString(n);
    assert s[0] != '+';
  }
}
