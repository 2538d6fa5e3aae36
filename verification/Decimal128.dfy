/** googletest's decimal printers for 128-bit integers: long division by ten on two 64-bit words. */
module Decimal128 {
  import opened Basics
  import opened Numerals

  const TWO128: int := 0x1_0000_0000_0000_0000_0000_0000_0000_0000

  type u64 = n: int | 0 <= n < 0x1_0000_0000_0000_0000
  type u128 = n: int | 0 <= n < 0x1_0000_0000_0000_0000_0000_0000_0000_0000
  type i128 = n: int | -0x8000_0000_0000_0000_0000_0000_0000_0000 <= n < 0x8000_0000_0000_0000_0000_0000_0000_0000

  const SIZE: nat := 40

  // ----- decimal texts

  /** `s` is how `n` is written in decimal: its digits, no leading zero. */
  predicate IsDecimal(s: string, n: nat) {
    s != "" && IsDigits(s) && Value(s, 10) == n && (s[0] == '0' ==> s == "0")
  }

  lemma {:induction false} Leading(s: string)
    requires IsDigits(s) && s != ""
    ensures IsDigits(s[1..]) && Value(s, 10) == (s[0] as int - '0' as int) * Pow(10, |s| - 1) + Value(s[1..], 10)
  {
    ValueCons(s[0], s[1..], 10);
    assert [s[0]] + s[1..] == s;
  }

  lemma {:induction false} ValueBound(s: string)
    requires IsDigits(s)
    ensures Value(s, 10) < Pow(10, |s|)
    decreases |s|
  {
    if s != "" {
      ValueBound(s[1..]);
      Leading(s);
      MulMono(Pow(10, |s| - 1), s[0] as int - '0' as int, 9);
    }
  }

  lemma {:induction false} PowMono(a: nat, b: nat)
    requires a <= b
    ensures Pow(10, a) <= Pow(10, b)
  {
    if a < b {
      PowMono(a, b - 1);
    }
  }

  lemma {:induction false} LeadingDigits(d: int, e: int, p: int, x: int, y: int)
    requires 0 <= x < p && 0 <= y < p && d * p + x == e * p + y
    ensures d == e && x == y
  {
    if d < e {
      MulMono(p, d + 1, e);
    } else if e < d {
      MulMono(p, e + 1, d);
    }
  }

  lemma {:induction false} SameLengthUnique(a: string, b: string)
    requires IsDigits(a) && IsDigits(b) && |a| == |b| && Value(a, 10) == Value(b, 10)
    ensures a == b
    decreases |a|
  {
    hide Value, Pow;
    if a != "" {
      Leading(a);
      Leading(b);
      ValueBound(a[1..]);
      ValueBound(b[1..]);
      LeadingDigits(a[0] as int - '0' as int, b[0] as int - '0' as int, Pow(10, |a| - 1),
                    Value(a[1..], 10), Value(b[1..], 10));
      SameLengthUnique(a[1..], b[1..]);
      assert a == [a[0]] + a[1..] && b == [b[0]] + b[1..];
    }
  }

  lemma {:induction false} LengthFromValue(a: string, b: string)
    requires IsDigits(a) && IsDigits(b) && a != "" && a[0] != '0' && Value(a, 10) == Value(b, 10)
    ensures |a| <= |b|
  {
    ValueBound(b);
    Leading(a);
    MulMono(Pow(10, |a| - 1), 1, a[0] as int - '0' as int);
    if |b| < |a| {
      PowMono(|b|, |a| - 1);
    }
  }

  /** A number is written in exactly one way. */
  lemma {:induction false} DecimalUnique(a: string, b: string, n: nat)
    requires IsDecimal(a, n) && IsDecimal(b, n)
    ensures a == b
  {
    assert Value("0", 10) == 0;
    if a[0] != '0' && b[0] != '0' {
      LengthFromValue(a, b);
      LengthFromValue(b, a);
      SameLengthUnique(a, b);
    } else if a[0] != '0' {
      LengthFromValue(a, b);
      SameLengthUnique(a, b);
    } else if b[0] != '0' {
      LengthFromValue(b, a);
      SameLengthUnique(a, b);
    }
  }

  // ----- one division step

  const TENTH: int := 1844674407370955161

  /** The loop body's arithmetic never leaves 64 bits and divides the two-word value by ten exactly. */
  lemma {:induction false} DivisionStep(high: int, low: int)
    requires 0 <= high < TWO64 && 0 <= low < TWO64
    ensures var hm := high % 10; var carry := 6 * hm + low % 10;
            && 0 <= carry < 64
            && hm * TENTH < TWO64 && low / 10 + hm * TENTH < TWO64
            && low / 10 + hm * TENTH + carry / 10 < TWO64
            && (high / 10) * TWO64 + (low / 10 + hm * TENTH + carry / 10) == (high * TWO64 + low) / 10
            && carry % 10 == (high * TWO64 + low) % 10
  {
    var h, hm, l, lm := high / 10, high % 10, low / 10, low % 10;
    var carry := 6 * hm + lm;
    var q := h * TWO64 + (l + hm * TENTH + carry / 10);
    assert TWO64 == 10 * TENTH + 6;
    assert high * TWO64 + low == 10 * q + carry % 10;
  }

  /** The buffer holds the digits already produced; `cur` is what is left to print. */
  ghost predicate Printing(v: u128, cur: int, text: string) {
    && IsDigits(text) && |text| <= 39
    && 0 <= cur < Pow(10, 39 - |text|)
    && v == cur * Pow(10, |text|) + Value(text, 10)
    && (text != "" && cur == 0 ==> text[0] != '0')
    && (text == "" ==> cur == v)
  }

  lemma {:induction false} PrintingStep(v: u128, cur: int, text: string)
    requires Printing(v, cur, text) && cur > 0
    ensures |text| < 39 && Printing(v, cur / 10, [('0' as int + cur % 10) as char] + text)
  {
    var k := |text|;
    var text' := [('0' as int + cur % 10) as char] + text;
    assert k < 39 by {
      assert Pow(10, 0) == 1;
    }
    assert text'[1..] == text;
    Leading(text');
    assert Pow(10, 39 - k) == 10 * Pow(10, 38 - k);
    ShiftDigit(cur, Pow(10, k));
  }

  lemma {:induction false} ShiftDigit(cur: int, p: int)
    ensures cur * p == (cur / 10) * (10 * p) + (cur % 10) * p
  {
    var q, d := cur / 10, cur % 10;
    assert cur == 10 * q + d;
  }

  lemma {:induction false} PrintingStart(v: u128)
    ensures Printing(v, v, "")
  {
    assert Pow(10, 9) == 1_000_000_000;
    assert Pow(10, 18) == 1_000_000_000 * Pow(10, 9);
    assert Pow(10, 27) == 1_000_000_000 * Pow(10, 18);
    assert Pow(10, 36) == 1_000_000_000 * Pow(10, 27);
    assert Pow(10, 39) == 1000 * Pow(10, 36);
  }

  lemma {:induction false} PrintingDone(v: u128, text: string)
    requires Printing(v, 0, text) && v > 0
    ensures IsDecimal(text, v)
  {
  }

  /** The value of the two words. */
  function Joined(high: u64, low: u64): (v: int)
    ensures v >= 0 && (v == 0 <==> high == 0 && low == 0)
  {
    high * TWO64 + low
  }

  // ----- the printers

  /** The division in the loop body; every intermediate value is a 64-bit word. */
  method DivideByTen(h: u64, l: u64) returns (high: u64, low: u64, digit: int)
    ensures Joined(high, low) == Joined(h, l) / 10
    ensures digit == Joined(h, l) % 10
  {
    DivisionStep(h, l);
    var highMod: u64 := h % 10;
    high := h / 10;
    var carry: u64 := 6 * highMod + l % 10;
    var product: u64 := highMod * 1844674407370955161;
    var partial: u64 := l / 10 + product;
    low := partial + carry / 10;
    digit := carry % 10;
  }

  /** Writes the digits backwards into the buffer, at most 39 of them above the terminating NUL. */
  method PrintU128(v: u128) returns (text: string)
    ensures IsDecimal(text, v) && |text| <= 39
  {
    if v == 0 {
      return "0";
    }
    var buf := new char[SIZE];
    var p := SIZE;
    var high: u64 := v / TWO64;
    var low: u64 := v % TWO64;
    assert Joined(high, low) == v;
    hide Printing, Joined, Pow, IsDecimal;
    p := p - 1;
    buf[p] := '\0';
    PrintingStart(v);
    while high != 0 || low != 0
      invariant 0 <= p <= 39 && buf[39] == '\0'
      invariant Printing(v, Joined(high, low), buf[p..39])
      decreases Joined(high, low)
    {
      PrintingStep(v, Joined(high, low), buf[p..39]);
      ghost var before := buf[p..39];
      var digit;
      high, low, digit := DivideByTen(high, low);
      p := p - 1;
      buf[p] := ('0' as int + digit) as char;
      assert buf[p..39] == [buf[p]] + before;
    }
    text := buf[p..39];
    PrintingDone(v, text);
  }

  /** Prints a minus sign and the magnitude, computed by negation modulo 2^128; the most negative value is
      its own negation and still prints as its magnitude. */
  method PrintI128(v: i128) returns (text: string)
    ensures v >= 0 ==> IsDecimal(text, v)
    ensures v < 0 ==> text != "" && text[0] == '-' && IsDecimal(text[1..], -(v as int))
  {
    var uv: u128 := if v < 0 then v + TWO128 else v;
    if v < 0 {
      text := "-";
      uv := (TWO128 - uv) % TWO128;
      var digits := PrintU128(uv);
      text := text + digits;
      assert text[1..] == digits;
    } else {
      text := PrintU128(uv);
    }
  }
}
