/** glog's signal-safe integer printer itoa_r and its hexadecimal reader GetHex (symbolize.cc). */
module IntegerText {
  import opened Basics
  import opened HexCodec
  import opened Numerals

  /** The digits in the order the printer produces them: least significant first, at least one, and at least
      `padding` of them. */
  function Produced(i: nat, base: nat, padding: nat): (r: string)
    requires 2 <= base <= 16
    ensures |r| >= 1 && IsHexText(r)
    decreases i + padding
  {
    QuotientSmaller(i, base);
    var pad := if padding > 0 then padding - 1 else 0;
    if i / base > 0 || pad > 0 then [Digit(i % base)] + Produced(i / base, base, pad) else [Digit(i % base)]
  }

  function Reversed(s: string): (r: string)
    ensures |r| == |s|
  {
    if s == "" then "" else Reversed(s[1..]) + [s[0]]
  }

  lemma {:induction false} ReversedAt(s: string, k: nat)
    requires k < |s|
    ensures Reversed(s)[k] == s[|s| - 1 - k]
    decreases |s|
  {
    if k < |s| - 1 {
      ReversedAt(s[1..], k);
    }
  }

  /** The text the printer leaves in the buffer. */
  function Text(i: nat, base: nat, padding: nat): (r: string)
    requires 2 <= base <= 16
    ensures |r| == |Produced(i, base, padding)|
  {
    Reversed(Produced(i, base, padding))
  }

  // ----- what the text denotes, and how long it is

  /** The last character is the last digit; before it stands the text of the quotient, if there is more to print. */
  lemma {:induction false} TextSnoc(i: nat, base: nat, padding: nat)
    requires 2 <= base <= 16
    ensures var q, pad := i / base, if padding > 0 then padding - 1 else 0;
            && q >= 0
            && Text(i, base, padding) == (if q > 0 || pad > 0 then Text(q, base, pad) else "") + [Digit(i % base)]
  {
    QuotientSmaller(i, base);
    hide Digit;
    var p := Produced(i, base, padding);
    var q, pad := i / base, if padding > 0 then padding - 1 else 0;
    assert p[1..] == if q > 0 || pad > 0 then Produced(q, base, pad) else "";
    assert Reversed(p) == Reversed(p[1..]) + [p[0]];
  }

  /** The text denotes the number printed, in every base and with every padding. */
  lemma {:induction false} TextValue(i: nat, base: nat, padding: nat)
    requires 2 <= base <= 16
    ensures IsHexText(Text(i, base, padding)) && Value(Text(i, base, padding), base) == i
    decreases i + padding
  {
    var pad := if padding > 0 then padding - 1 else 0;
    QuotientSmaller(i, base);
    var q, d := i / base, i % base;
    TextSnoc(i, base, padding);
    hide Text;
    if q > 0 || pad > 0 {
      TextValue(q, base, pad);
      SnocValue(Text(q, base, pad), d, base, q, i);
    } else {
      SnocValue("", d, base, q, i);
    }
  }

  lemma {:induction false} SnocValue(prefix: string, d: int, base: nat, q: nat, i: nat)
    requires IsHexText(prefix) && Value(prefix, base) == q && 0 <= d < 16 && q * base + d == i
    ensures IsHexText(prefix + [Digit(d)]) && Value(prefix + [Digit(d)], base) == i
  {
    hide Value;
    ValueSnoc(prefix, Digit(d), base);
  }

  lemma {:induction false} QuotientSmaller(i: nat, base: nat)
    requires 2 <= base
    ensures 0 <= i / base <= i && (i > 0 ==> i / base < i) && i / base * base + i % base == i
  {
    var q := i / base;
    assert q * base + i % base == i;
    if q >= 1 {
      assert q * base >= q * 2 by { MulMono(q, 2, base); }
    }
  }

  function Max(a: nat, b: nat): (r: nat) {
    if a < b then b else a
  }

  /** The number of digits of `i` without padding; zero has one. */
  ghost predicate DigitCount(i: nat, base: nat, n: nat) {
    n >= 1 && i < Pow(base, n) && (n > 1 ==> i >= Pow(base, n - 1))
  }

  lemma {:induction false} CountStep(i: nat, base: nat, n: nat)
    requires 2 <= base && DigitCount(i, base, n) && n > 1
    ensures i / base > 0 && DigitCount(i / base, base, n - 1)
  {
    QuotientSmaller(i, base);
    PowPositive(base, n - 2);
    Narrow(i, i / base, i % base, base, Pow(base, n - 1), Pow(base, n - 2));
  }

  lemma {:induction false} Narrow(i: int, q: int, d: int, base: int, hi: int, lo: int)
    requires i == q * base + d && 0 <= d < base && hi == base * lo && hi <= i < base * hi && lo >= 1
    ensures lo <= q < hi
  {
    if q >= hi {
      MulMono(base, hi, q);
    }
    if q < lo {
      MulMono(base, q + 1, lo);
    }
  }

  /** The printer makes max(1, padding, digit count) characters. */
  lemma {:induction false} TextLength(i: nat, base: nat, padding: nat, n: nat)
    requires 2 <= base <= 16 && DigitCount(i, base, n)
    ensures |Text(i, base, padding)| == Max(Max(1, padding), n)
    decreases n + padding
  {
    var pad := if padding > 0 then padding - 1 else 0;
    QuotientSmaller(i, base);
    if n > 1 {
      CountStep(i, base, n);
      TextLength(i / base, base, pad, n - 1);
    } else {
      assert Pow(base, 1) == base * Pow(base, 0) == base;
      SmallQuotient(i, base);
      if pad > 0 {
        assert Pow(base, 1) == base;
        TextLength(0, base, pad, 1);
      }
    }
  }

  lemma {:induction false} SmallQuotient(i: nat, base: nat)
    requires 2 <= base && i < base
    ensures i / base == 0
  {
  }

  // ----- the printer

  /** A NUL-terminated result: the text, a NUL, and everything after it as before. */
  ghost predicate Holds(before: string, after: string, text: string) {
    && |text| + 1 <= |before| == |after|
    && after[..|text|] == text && after[|text|] == '\0' && after[|text| + 1..] == before[|text| + 1..]
  }

  /** itoa_r: succeeds exactly when the base is 2 to 16 and the text and its NUL fit in `sz`. A failure with
      room for one character leaves the empty string, and nothing at or after `sz` is ever written. */
  method Itoa(i: nat, buf: array<char>, sz: nat, base: nat, padding: nat) returns (ok: bool)
    requires sz <= buf.Length
    modifies buf
    ensures ok == (2 <= base <= 16 && |Text(i, base, padding)| + 1 <= sz)
    ensures ok ==> Holds(old(buf[..]), buf[..], Text(i, base, padding))
    ensures !ok && sz >= 1 ==> buf[0] == '\0'
    ensures buf[sz..] == old(buf[sz..])
  {
    var n := 1;
    if n > sz {
      return false;
    }
    if base < 2 || base > 16 {
      buf[0] := '\0';
      return false;
    }
    var len;
    ok, len := WriteDigits(i, buf, sz, base, padding);
    if ok {
      buf[len] := '\0';
      Reverse(buf, len);
    }
  }

  /** The conversion loop: digits, least significant first, as long as one more and the NUL fit. */
  method WriteDigits(i: nat, buf: array<char>, sz: nat, base: nat, padding: nat) returns (ok: bool, ptr: nat)
    requires 1 <= sz <= buf.Length && 2 <= base <= 16
    modifies buf
    ensures ok == (|Produced(i, base, padding)| + 1 <= sz)
    ensures ok ==> ptr == |Produced(i, base, padding)| && buf[..ptr] == Produced(i, base, padding)
                   && buf[ptr..] == old(buf[ptr..])
    ensures !ok ==> buf[0] == '\0' && buf[sz..] == old(buf[sz..])
  {
    hide Produced, Digit;
    ghost var all := Produced(i, base, padding);
    assert all[0..] == all;
    var n, v: nat, pad: nat := 1, i, padding;
    ptr := 0;
    while true
      invariant 0 <= ptr < |all| && n == ptr + 1 <= sz
      invariant all[ptr..] == Produced(v, base, pad)
      invariant forall k :: 0 <= k < ptr ==> buf[k] == all[k]
      invariant forall k :: ptr <= k < buf.Length ==> buf[k] == old(buf[k])
      decreases |all| - ptr
    {
      ProducedStep(v, base, pad, all, ptr);
      n := n + 1;
      if n > sz {
        buf[0] := '\0';
        return false, ptr;
      }
      HexMapDigits(v % base);
      buf[ptr] := HEX_MAP[v % base];
      ptr := ptr + 1;
      v := v / base;
      if pad > 0 {
        pad := pad - 1;
      }
      if !(v > 0 || pad > 0) {
        break;
      }
    }
    ok := true;
  }

  lemma {:induction false} ProducedStep(v: nat, base: nat, pad: nat, all: string, ptr: nat)
    requires 2 <= base <= 16 && ptr < |all| && all[ptr..] == Produced(v, base, pad)
    ensures var pad' := if pad > 0 then pad - 1 else 0;
            && v / base >= 0 && all[ptr] == Digit(v % base)
            && (if v / base > 0 || pad' > 0 then ptr + 1 < |all| && all[ptr + 1..] == Produced(v / base, base, pad')
                else ptr + 1 == |all|)
  {
    QuotientSmaller(v, base);
    assert all[ptr..][0] == all[ptr] && all[ptr..][1..] == all[ptr + 1..];
  }

  /** The in-place reversal of the first `n` characters, from both ends. */
  method Reverse(buf: array<char>, n: nat)
    requires 1 <= n <= buf.Length
    modifies buf
    ensures buf[..n] == Reversed(old(buf[..n])) && buf[n..] == old(buf[n..])
  {
    var start, ptr := 0, n;
    ghost var s := buf[..n];
    while true
      invariant 0 <= start && ptr == n - start && start <= ptr
      invariant forall k :: start <= k < n - start ==> buf[k] == s[k]
      invariant forall k :: 0 <= k < start ==> buf[k] == s[n - 1 - k] && buf[n - 1 - k] == s[k]
      invariant buf[n..] == old(buf[n..])
      decreases ptr
    {
      ptr := ptr - 1;
      if !(ptr > start) {
        break;
      }
      buf[ptr], buf[start] := buf[start], buf[ptr];
      start := start + 1;
    }
    forall k | 0 <= k < n ensures buf[k] == Reversed(s)[k] {
      ReversedAt(s, k);
      if k >= n - start {
        assert buf[n - 1 - (n - 1 - k)] == s[n - 1 - k];
      }
    }
  }

  // ----- the reader

  function HexPrefix(s: string): (n: nat)
    ensures n <= |s| && IsHexText(s[..n]) && (n < |s| ==> !IsHexDigit(s[n]))
  {
    if s == "" || !IsHexDigit(s[0]) then 0
    else
      var k := HexPrefix(s[1..]);
      assert s[..k + 1] == [s[0]] + s[1..][..k];
      k + 1
  }

  /** GetHex: the longest run of hexadecimal digits at the front, and its value in 64 bits. */
  method GetHex(s: string) returns (hex: int, p: nat)
    ensures p == HexPrefix(s)
    ensures hex == Value(s[..p], 16) % TWO64
  {
    hex := 0;
    p := 0;
    assert Value(s[..0], 16) == 0;
    hide Value, HexPrefix;
    while p < |s|
      invariant 0 <= p <= HexPrefix(s) && IsHexText(s[..p])
      invariant hex == Value(s[..p], 16) % TWO64
    {
      var ch := s[p];
      if '0' <= ch <= '9' || 'A' <= ch <= 'F' || 'a' <= ch <= 'f' {
        var d := if ch < 'A' then ch as int - '0' as int else ch as int % 16 + 9;
        assert IsHexDigit(ch) && d == DigitValue(ch);
        GetHexStep(s, p);
        hex := hex * 16 % TWO64 + d;
        p := p + 1;
      } else {
        break;
      }
    }
  }

  lemma {:induction false} GetHexStep(s: string, p: nat)
    requires p < |s| && IsHexText(s[..p]) && IsHexDigit(s[p])
    ensures IsHexText(s[..p + 1])
    ensures Value(s[..p + 1], 16) % TWO64 == (Value(s[..p], 16) % TWO64) * 16 % TWO64 + DigitValue(s[p])
  {
    assert s[..p + 1] == s[..p] + [s[p]];
    ValueSnoc(s[..p], s[p], 16);
    hide Value;
    HexStep(Value(s[..p], 16), DigitValue(s[p]));
  }

  lemma {:induction false} HexStep(v: nat, d: int)
    requires 0 <= d < 16
    ensures (v % TWO64) * 16 % TWO64 + d == (v * 16 + d) % TWO64
  {
    var k := TWO64 / 16;
    var q, r := v / TWO64, v % TWO64;
    var a, b := r / k, r % k;
    assert r * 16 == a * TWO64 + 16 * b;
    Remainder(r * 16, a, 16 * b);
    assert v * 16 + d == (16 * q + a) * TWO64 + (16 * b + d);
    Remainder(v * 16 + d, 16 * q + a, 16 * b + d);
  }

  lemma {:induction false} Remainder(x: int, q: int, r: int)
    requires x == q * TWO64 + r && 0 <= r < TWO64
    ensures x % TWO64 == r
  {
  }

  /** Reading back what was printed in base 16 gives the number, for every 64-bit value. */
  lemma {:induction false} PrintThenRead(i: nat, padding: nat)
    requires i < TWO64
    ensures HexPrefix(Text(i, 16, padding)) == |Text(i, 16, padding)|
    ensures IsHexText(Text(i, 16, padding)) && Value(Text(i, 16, padding), 16) % TWO64 == i
  {
    TextValue(i, 16, padding);
    hide *;
    AllHexPrefix(Text(i, 16, padding));
    Remainder(i, 0, i);
  }

  lemma {:induction false} AllHexPrefix(s: string)
    requires IsHexText(s)
    ensures HexPrefix(s) == |s|
  {
  }
}
