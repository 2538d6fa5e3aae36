/** Positional numerals: what a string of digits denotes in a base. */
module Numerals {
  import opened Basics
  import opened HexCodec

  /** The number a text denotes in the given base, most significant digit first. */
  function Value(s: string, base: nat): (r: nat)
    requires IsHexText(s)
  {
    if s == "" then 0 else Value(s[..|s| - 1], base) * base + DigitValue(s[|s| - 1])
  }

  /** Decimal digits only. */
  predicate IsDigits(s: string)
    ensures IsDigits(s) ==> IsHexText(s)
  {
    forall i :: 0 <= i < |s| ==> '0' <= s[i] <= '9'
  }

  function Pow(base: nat, n: nat): (r: nat) {
    if n == 0 then 1 else base * Pow(base, n - 1)
  }

  lemma {:induction false} PowPositive(base: nat, n: nat)
    requires base >= 1
    ensures Pow(base, n) >= 1
  {
    if n > 0 {
      PowPositive(base, n - 1);
      MulMono(base, 1, Pow(base, n - 1));
    }
  }

  lemma {:induction false} ValueSnoc(s: string, d: char, base: nat)
    requires IsHexText(s) && IsHexDigit(d)
    ensures IsHexText(s + [d]) && Value(s + [d], base) == Value(s, base) * base + DigitValue(d)
  {
  }

  /** A digit in front counts the power of the digits behind it. */
  lemma {:induction false} ValueCons(d: char, s: string, base: nat)
    requires IsHexDigit(d) && IsHexText(s)
    ensures IsHexText([d] + s) && Value([d] + s, base) == DigitValue(d) * Pow(base, |s|) + Value(s, base)
    decreases |s|
  {
    if s == "" {
      assert [d] + s == "" + [d];
      ValueSnoc("", d, base);
    } else {
      var init, last := s[..|s| - 1], s[|s| - 1];
      ValueCons(d, init, base);
      ValueSnoc([d] + init, last, base);
      assert ([d] + init) + [last] == [d] + s && init + [last] == s;
      ValueSnoc(init, last, base);
      Distribute(DigitValue(d), Pow(base, |init|), Value(init, base), base);
    }
  }

  lemma {:induction false} Distribute(d: int, p: int, v: int, base: int)
    ensures (d * p + v) * base == d * (base * p) + v * base
  {
  }
}
