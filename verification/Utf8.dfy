/** googletest's UTF-8 validator, against the encoding of sections 3 and 4 of RFC 3629. */
module Utf8 {
  import opened Basics

  /** A Unicode scalar value: a code point that is not a surrogate. */
  type Scalar = v: int | 0 <= v < 0xD800 || 0xE000 <= v <= 0x10FFFF

  /** The encoding of one scalar value, by the bit distribution table of section 3. */
  function Encode(v: Scalar): (r: seq<byte>)
    ensures 1 <= |r| <= 4
  {
    if v < 0x80 then [v]
    else if v < 0x800 then [0xC0 + v / 64, 0x80 + v % 64]
    else if v < 0x10000 then [0xE0 + v / 4096, 0x80 + v / 64 % 64, 0x80 + v % 64]
    else [0xF0 + v / 262144, 0x80 + v / 4096 % 64, 0x80 + v / 64 % 64, 0x80 + v % 64]
  }

  function EncodeAll(vs: seq<Scalar>): (r: seq<byte>) {
    if vs == [] then [] else Encode(vs[0]) + EncodeAll(vs[1..])
  }

  ghost predicate IsUtf8(s: seq<byte>) {
    exists vs :: EncodeAll(vs) == s
  }

  predicate IsTrail(t: byte) {
    0x80 <= t <= 0xbf
  }

  /** How many bytes the validator's loop body consumes at the front of `s`; 0 when it rejects. */
  function Accepts(s: seq<byte>): (k: nat)
    requires s != []
    ensures k <= 4 && k <= |s|
  {
    var lead := s[0];
    if lead <= 0x7f then 1
    else if lead < 0xc2 then 0
    else if lead <= 0xdf && 2 <= |s| && IsTrail(s[1]) then 2
    else if 0xe0 <= lead <= 0xef && 3 <= |s| && IsTrail(s[1]) && IsTrail(s[2])
            && (lead != 0xe0 || s[1] >= 0xa0) && (lead != 0xed || s[1] < 0xa0) then 3
    else if 0xf0 <= lead <= 0xf4 && 4 <= |s| && IsTrail(s[1]) && IsTrail(s[2]) && IsTrail(s[3])
            && (lead != 0xf0 || s[1] >= 0x90) && (lead != 0xf4 || s[1] < 0x90) then 4
    else 0
  }

  /** The scalar value at the front of an accepted sequence, and that it encodes back to those bytes. */
  function Decode(s: seq<byte>): (v: Scalar)
    requires s != [] && Accepts(s) > 0
  {
    match Accepts(s)
    case 1 => s[0]
    case 2 => (s[0] as int - 0xC0) * 64 + (s[1] as int - 0x80)
    case 3 => (s[0] as int - 0xE0) * 4096 + (s[1] as int - 0x80) * 64 + (s[2] as int - 0x80)
    case 4 =>
      (s[0] as int - 0xF0) * 262144 + (s[1] as int - 0x80) * 4096 + (s[2] as int - 0x80) * 64 + (s[3] as int - 0x80)
  }

  lemma {:induction false} DecodeEncodes(s: seq<byte>)
    requires s != [] && Accepts(s) > 0
    ensures Encode(Decode(s)) == s[..Accepts(s)]
  {
    var v := Decode(s);
    match Accepts(s)
    case 1 =>
    case 2 => Digits2(s[0] - 0xC0, s[1] - 0x80);
    case 3 => Digits3(s[0] - 0xE0, s[1] - 0x80, s[2] - 0x80);
    case 4 => Digits4(s[0] - 0xF0, s[1] - 0x80, s[2] - 0x80, s[3] - 0x80);
  }

  lemma {:induction false} Digits2(a: int, b: int)
    requires 0 <= a && 0 <= b < 64
    ensures (a * 64 + b) / 64 == a && (a * 64 + b) % 64 == b
  {
  }

  lemma {:induction false} Digits3(a: int, b: int, c: int)
    requires 0 <= a && 0 <= b < 64 && 0 <= c < 64
    ensures var v := a * 4096 + b * 64 + c; v / 4096 == a && v / 64 % 64 == b && v % 64 == c
  {
    var v := a * 4096 + b * 64 + c;
    Digits2(a * 64 + b, c);
    Digits2(a, b);
    assert v == (a * 64 + b) * 64 + c;
    assert v / 4096 == v / 64 / 64;
  }

  lemma {:induction false} Digits4(a: int, b: int, c: int, d: int)
    requires 0 <= a && 0 <= b < 64 && 0 <= c < 64 && 0 <= d < 64
    ensures var v := a * 262144 + b * 4096 + c * 64 + d;
            v / 262144 == a && v / 4096 % 64 == b && v / 64 % 64 == c && v % 64 == d
  {
    var v := a * 262144 + b * 4096 + c * 64 + d;
    assert v / 64 == a * 4096 + b * 64 + c;
    assert v / 4096 == a * 64 + b;
  }

  /** Every encoded scalar value is accepted whole, whatever follows. */
  lemma {:induction false} EncodeAccepted(v: Scalar, rest: seq<byte>)
    ensures Accepts(Encode(v) + rest) == |Encode(v)|
  {
  }

  function Accepted(s: seq<byte>): (r: bool)
    decreases |s|
  {
    s == [] || (Accepts(s) > 0 && Accepted(s[Accepts(s)..]))
  }

  lemma {:induction false} AcceptedIsEncoding(s: seq<byte>) returns (vs: seq<Scalar>)
    requires Accepted(s)
    ensures EncodeAll(vs) == s
    decreases |s|
  {
    if s == [] {
      vs := [];
    } else {
      var k := Accepts(s);
      DecodeEncodes(s);
      var tail := AcceptedIsEncoding(s[k..]);
      vs := [Decode(s)] + tail;
      assert vs[1..] == tail;
      assert s == s[..k] + s[k..];
    }
  }

  lemma {:induction false} EncodingIsAccepted(vs: seq<Scalar>)
    ensures Accepted(EncodeAll(vs))
    decreases |vs|
  {
    if vs != [] {
      var s, rest := EncodeAll(vs), EncodeAll(vs[1..]);
      EncodingIsAccepted(vs[1..]);
      EncodeAccepted(vs[0], rest);
      assert s[|Encode(vs[0])|..] == rest;
    }
  }

  lemma {:induction false} EncodingEmpty(vs: seq<Scalar>)
    ensures EncodeAll(vs) == [] <==> vs == []
  {
  }

  /** A text is the encoding of at most one sequence of scalar values. */
  lemma {:induction false} EncodingUnique(a: seq<Scalar>, b: seq<Scalar>)
    requires EncodeAll(a) == EncodeAll(b)
    ensures a == b
    decreases |a|
  {
    EncodingEmpty(a);
    EncodingEmpty(b);
    if a != [] {
      var s, ta, tb := EncodeAll(a), EncodeAll(a[1..]), EncodeAll(b[1..]);
      FrontScalar(a[0], ta);
      FrontScalar(b[0], tb);
      assert ta == s[Accepts(s)..] == tb;
      EncodingUnique(a[1..], b[1..]);
      assert a == [a[0]] + a[1..] && b == [b[0]] + b[1..];
    }
  }

  lemma {:induction false} FrontScalar(v: Scalar, rest: seq<byte>)
    ensures var s := Encode(v) + rest; Accepts(s) == |Encode(v)| && Decode(s) == v && s[Accepts(s)..] == rest
  {
    EncodeAccepted(v, rest);
    var s := Encode(v) + rest;
    DecodeEncodes(s);
    EncodeInjective(v, Decode(s));
  }

  lemma {:induction false} EncodeInjective(v: Scalar, w: Scalar)
    requires Encode(v) == Encode(w)
    ensures v == w
  {
    Base64(v);
    Base64(w);
    var a, b := Encode(v), Encode(w);
    if |a| == 2 {
      assert a[0] == b[0] && a[1] == b[1];
    } else if |a| == 3 {
      assert a[0] == b[0] && a[1] == b[1] && a[2] == b[2];
    } else if |a| == 4 {
      assert a[0] == b[0] && a[1] == b[1] && a[2] == b[2] && a[3] == b[3];
    } else {
      assert a[0] == b[0];
    }
  }

  lemma {:induction false} Base64(v: int)
    requires v >= 0
    ensures v == v / 64 * 64 + v % 64
    ensures v == v / 4096 * 4096 + v / 64 % 64 * 64 + v % 64
    ensures v == v / 262144 * 262144 + v / 4096 % 64 * 4096 + v / 64 % 64 * 64 + v % 64
  {
    var a, b, c := v % 64, v / 64, v / 4096;
    assert c == b / 64 && v / 262144 == c / 64;
  }

  /** IsValidUTF8: true exactly for the encodings of sequences of scalar values. No index reaches the length. */
  method IsValidUtf8(s: seq<byte>) returns (r: bool)
    ensures r <==> IsUtf8(s)
  {
    var i := 0;
    while i < |s|
      invariant 0 <= i <= |s|
      invariant Accepted(s) == Accepted(s[i..])
      decreases |s| - i
    {
      ghost var t := s[i..];
      ghost var start := i;
      var lead := s[i];
      i := i + 1;
      if lead <= 0x7f {
        assert s[i..] == t[1..];
        continue;
      }
      if lead < 0xc2 {
        Rejected(s);
        return false;
      } else if lead <= 0xdf && i + 1 <= |s| && IsTrail(s[i]) {
        i := i + 1;
      } else if 0xe0 <= lead && lead <= 0xef && i + 2 <= |s| && IsTrail(s[i]) && IsTrail(s[i + 1])
                && (lead != 0xe0 || s[i] >= 0xa0) && (lead != 0xed || s[i] < 0xa0) {
        i := i + 2;
      } else if 0xf0 <= lead && lead <= 0xf4 && i + 3 <= |s| && IsTrail(s[i]) && IsTrail(s[i + 1]) && IsTrail(s[i + 2])
                && (lead != 0xf0 || s[i] >= 0x90) && (lead != 0xf4 || s[i] < 0x90) {
        i := i + 3;
      } else {
        Rejected(s);
        return false;
      }
      assert Accepts(t) == i - start;
      assert s[i..] == t[i - start..];
    }
    ghost var vs := AcceptedIsEncoding(s);
    return true;
  }

  lemma {:induction false} Rejected(s: seq<byte>)
    requires !Accepted(s)
    ensures !IsUtf8(s)
  {
    forall vs | EncodeAll(vs) == s ensures false {
      EncodingIsAccepted(vs);
    }
  }
}
