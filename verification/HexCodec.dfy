/**
  The hexadecimal codec of include/hex_dump.hpp: the variadic encoder
  bin2hex_fast, its inner loop do_conv, and the two table-driven decoders.
  Text is a string of C characters; binary data is a sequence of bytes.
  */
module HexCodec {
  import opened Basics

  const HEX_MAP: string := "0123456789abcdef"

  predicate IsHexDigit(c: char) {
    '0' <= c <= '9' || 'a' <= c <= 'f' || 'A' <= c <= 'F'
  }

  predicate IsHexText(s: string) {
    forall i :: 0 <= i < |s| ==> IsHexDigit(s[i])
  }

  // ----- reference meaning, independent of the code's tables

  /** The number a hexadecimal digit denotes, in either case. */
  function DigitValue(c: char): (v: int)
    requires IsHexDigit(c)
    ensures 0 <= v < 16
  {
    if c <= '9' then c as int - '0' as int
    else if c <= 'F' then c as int - 'A' as int + 10
    else c as int - 'a' as int + 10
  }

  /** The bytes an even-length hexadecimal text denotes, most significant nibble first. */
  function HexValue(s: string): (r: seq<byte>)
    requires |s| % 2 == 0 && IsHexText(s)
    ensures |r| == |s| / 2
    ensures forall i :: 0 <= i < |r| ==> r[i] == 16 * DigitValue(s[2 * i]) + DigitValue(s[2 * i + 1])
  {
    seq(|s| / 2, i requires 0 <= i < |s| / 2 => 16 * DigitValue(s[2 * i]) + DigitValue(s[2 * i + 1]))
  }

  function LowerDigit(c: char): (r: char)
    requires IsHexDigit(c)
  {
    if 'A' <= c <= 'F' then (c as int + 32) as char else c
  }

  /** The text with every hexadecimal digit in lower case. */
  function Lower(s: string): (r: string)
    requires IsHexText(s)
    ensures |r| == |s|
    ensures forall i :: 0 <= i < |s| ==> r[i] == LowerDigit(s[i])
  {
    seq(|s|, i requires 0 <= i < |s| => LowerDigit(s[i]))
  }

  // ----- the encoder

  /** The lower-case digit denoting `n`. */
  function Digit(n: int): (c: char)
    requires 0 <= n < 16
    ensures IsHexDigit(c) && DigitValue(c) == n && LowerDigit(c) == c
  {
    if n < 10 then ('0' as int + n) as char else ('a' as int + n - 10) as char
  }

  /** The encoder's table holds the digits in order. */
  lemma {:induction false} HexMapDigits(n: int)
    requires 0 <= n < 16
    ensures HEX_MAP[n] == Digit(n)
  {
  }

  function ByteText(b: byte): (r: string) {
    [Digit(b / 16), Digit(b % 16)]
  }

  /** What do_conv writes for `src`: two digits a byte, high nibble first. */
  function HexText(src: seq<byte>): (r: string)
    ensures |r| == 2 * |src|
  {
    if src == [] then "" else HexText(src[..|src| - 1]) + ByteText(src[|src| - 1])
  }

  lemma {:induction false} HexTextDigits(src: seq<byte>)
    ensures forall i :: 0 <= i < |src| ==>
                          HexText(src)[2 * i] == Digit(src[i] / 16) && HexText(src)[2 * i + 1] == Digit(src[i] % 16)
    ensures IsHexText(HexText(src))
  {
    if src != [] {
      HexTextDigits(src[..|src| - 1]);
    }
  }

  /** Decoding the encoder's text gives the bytes back. */
  lemma {:induction false} DecodeEncode(src: seq<byte>)
    ensures IsHexText(HexText(src)) && HexValue(HexText(src)) == src
  {
    HexTextDigits(src);
    var t := HexText(src);
    forall i | 0 <= i < |src| ensures HexValue(t)[i] == src[i] {
      assert DigitValue(t[2 * i]) == src[i] / 16 && DigitValue(t[2 * i + 1]) == src[i] % 16;
    }
  }

  /** Re-encoding a decoded text gives its lower-case form. */
  lemma {:induction false} EncodeDecode(s: string)
    requires |s| % 2 == 0 && IsHexText(s)
    ensures HexText(HexValue(s)) == Lower(s)
  {
    var t := HexText(HexValue(s));
    HexTextDigits(HexValue(s));
    forall j | 0 <= j < |s| ensures t[j] == LowerDigit(s[j]) {
      EncodeDecodePair(s, j / 2);
      assert j == 2 * (j / 2) || j == 2 * (j / 2) + 1;
    }
  }

  lemma {:induction false} EncodeDecodePair(s: string, i: nat)
    requires |s| % 2 == 0 && IsHexText(s) && i < |s| / 2
    ensures Digit(HexValue(s)[i] / 16) == LowerDigit(s[2 * i]) && Digit(HexValue(s)[i] % 16) == LowerDigit(s[2 * i + 1])
  {
  }

  /** `after` is `before` with exactly the cells from `at` on replaced by `text`. */
  ghost predicate Overwrites(before: string, after: string, at: nat, text: string) {
    && at + |text| <= |before| == |after|
    && forall k :: 0 <= k < |after| ==> after[k] == if at <= k < at + |text| then text[k - at] else before[k]
  }

  lemma {:induction false} OverwritesChain(b0: string, b1: string, b2: string, at: nat, first: string, second: string)
    requires Overwrites(b0, b1, at, first) && Overwrites(b1, b2, at + |first|, second)
    ensures Overwrites(b0, b2, at, first + second)
  {
  }

  method DoConv(dst: array<char>, at: nat, src: seq<byte>)
    requires at + 2 * |src| <= dst.Length
    modifies dst
    ensures Overwrites(old(dst[..]), dst[..], at, HexText(src))
  {
    var p := at;
    for i := 0 to |src|
      invariant p == at + 2 * i
      invariant Overwrites(old(dst[..]), dst[..], at, HexText(src[..i]))
    {
      HexMapDigits(src[i] / 16);
      HexMapDigits(src[i] % 16);
      ghost var before := dst[..];
      dst[p] := HEX_MAP[src[i] / 16];
      p := p + 1;
      dst[p] := HEX_MAP[src[i] % 16];
      p := p + 1;
      OverwritesChain(old(dst[..]), before, dst[..], at, HexText(src[..i]), ByteText(src[i]));
      assert src[..i + 1][..i] == src[..i];
    }
    assert src[..|src|] == src;
  }

  /** One argument of bin2hex_fast: a C string copied verbatim, or an object dumped byte by byte. */
  datatype Field = Text(text: CText) | Raw(bytes: seq<byte>)

  function FieldText(f: Field): (r: string) {
    match f
    case Text(t) => t
    case Raw(b) => HexText(b)
  }

  function Rendered(fields: seq<Field>): (r: string) {
    if fields == [] then "" else FieldText(fields[0]) + Rendered(fields[1..])
  }

  /** String lengths plus twice the sizes of the dumped objects. */
  function FieldBytes(fields: seq<Field>): (n: nat)
    ensures n == |Rendered(fields)|
  {
    if fields == [] then 0
    else (match fields[0] case Text(t) => |t| case Raw(b) => 2 * |b|) + FieldBytes(fields[1..])
  }

  /** The part of bin2hex_fast that handles its first argument: memcpy for a string, do_conv otherwise. */
  method WriteField(dst: array<char>, at: nat, f: Field) returns (n: nat)
    requires at + |FieldText(f)| <= dst.Length
    modifies dst
    ensures n == |FieldText(f)|
    ensures Overwrites(old(dst[..]), dst[..], at, FieldText(f))
  {
    match f
    case Text(t) =>
      n := |t|;
      forall i | 0 <= i < |t| {
        dst[at + i] := t[i];
      }
    case Raw(b) =>
      n := 2 * |b|;
      DoConv(dst, at, b);
  }

  lemma {:induction false} RenderedSplit(fields: seq<Field>)
    requires fields != []
    ensures Rendered(fields) == FieldText(fields[0]) + Rendered(fields[1..])
    ensures FieldBytes(fields) == |FieldText(fields[0])| + FieldBytes(fields[1..])
  {
  }

  /** Writes the text of all fields and a NUL at `at`, touching nothing else, and returns the text's length. */
  method Bin2HexFast(dst: array<char>, at: nat, fields: seq<Field>) returns (n: nat)
    requires at + |Rendered(fields)| < dst.Length
    modifies dst
    ensures n == FieldBytes(fields)
    ensures Overwrites(old(dst[..]), dst[..], at, Rendered(fields) + ['\0'])
    decreases |fields|
  {
    if fields == [] {
      dst[at] := '\0';
      n := 0;
    } else {
      RenderedSplit(fields);
      hide Overwrites, FieldText, Rendered, FieldBytes;
      var rest := fields[1..];
      var bytes := WriteField(dst, at, fields[0]);
      ghost var mid := dst[..];
      var m := Bin2HexFast(dst, at + bytes, rest);
      OverwritesChain(old(dst[..]), mid, dst[..], at, FieldText(fields[0]), Rendered(rest) + ['\0']);
      Associative(FieldText(fields[0]), Rendered(rest), ['\0']);
      n := bytes + m;
    }
  }

  // ----- the decoders

  /** Table of hex_string_to_bin, indexed by (c & 0x1F) ^ 0x10. */
  const MASKED_TABLE: seq<byte> :=
    [0, 1, 2, 3, 4, 5, 6, 7, 8, 9, 0, 0, 0, 0, 0, 0,
     0, 10, 11, 12, 13, 14, 15, 0, 0, 0, 0, 0, 0, 0, 0, 0]

  function MaskedIndex(c: char): (i: int)
    ensures 0 <= i < 32
  {
    var low := c as int % 32;
    if low < 16 then low + 16 else low - 16
  }

  lemma {:induction false} MaskedTableDigit(c: char)
    requires IsHexDigit(c)
    ensures MASKED_TABLE[MaskedIndex(c)] == DigitValue(c)
  {
    MaskedTableValue(c);
  }

  /** What the masked decoder makes of any character, by its low five bits: sixteen to twenty-five are the digits 0 to
      9, one to six are a to f, and all others count as 0. So `Q` reads as 1 and `q` as 1 too. */
  lemma {:induction false} MaskedTableValue(c: char)
    ensures var low := c as int % 32;
            MASKED_TABLE[MaskedIndex(c)] == if 16 <= low <= 25 then low - 16 else if 1 <= low <= 6 then low + 9 else 0
  {
  }

  /** Table of hex_string_to_bin_fastest, indexed by the character itself: 103 entries. */
  const DIRECT_TABLE: seq<byte> :=
    seq(48, _ => 0) + [0, 1, 2, 3, 4, 5, 6, 7, 8, 9] + seq(7, _ => 0) + [10, 11, 12, 13, 14, 15]
    + seq(26, _ => 0) + [10, 11, 12, 13, 14, 15]

  /** The table knows the digits of either case and takes every other character it covers for 0. */
  lemma {:induction false} DirectTableDigit(c: char)
    requires c as int < 103
    ensures |DIRECT_TABLE| == 103 && DIRECT_TABLE[c as int] == LooseDigit(c)
  {
  }

  /** The value the masked decoder gives a pair of characters; every index is in range for every character. */
  function MaskedPair(hi: char, lo: char): (b: byte)
  {
    MASKED_TABLE[MaskedIndex(hi)] * 16 + MASKED_TABLE[MaskedIndex(lo)]
  }

  /** hex_string_to_bin: total on every string; past the end of an odd-length string it reads the NUL. */
  method HexStringToBin(str: string) returns (v: seq<byte>)
    ensures |v| == (|str| + 1) / 2
    ensures forall i :: 0 <= i < |str| / 2 ==> v[i] == MaskedPair(str[2 * i], str[2 * i + 1])
    ensures |str| % 2 == 1 ==> v[|str| / 2] == MaskedPair(str[|str| - 1], '\0')
    ensures |str| % 2 == 0 && IsHexText(str) ==> v == HexValue(str)
  {
    v := [];
    var pos := 0;
    while pos < |str|
      invariant 0 <= pos <= |str| + 1 && pos % 2 == 0
      invariant |v| == pos / 2
      invariant forall i :: 0 <= i < |v| ==>
                              v[i] == MaskedPair(str[2 * i], if 2 * i + 1 < |str| then str[2 * i + 1] else '\0')
    {
      var next := if pos + 1 < |str| then str[pos + 1] else '\0';
      v := v + [MaskedPair(str[pos], next)];
      pos := pos + 2;
    }
    if |str| % 2 == 0 && IsHexText(str) {
      forall i | 0 <= i < |v| ensures v[i] == HexValue(str)[i] {
        MaskedTableDigit(str[2 * i]);
        MaskedTableDigit(str[2 * i + 1]);
      }
    }
  }

  /** The number of a character in a lenient reading: a digit's value, and 0 for anything else. */
  function LooseDigit(c: char): (v: int)
    ensures 0 <= v < 16
  {
    if IsHexDigit(c) then DigitValue(c) else 0
  }

  /** The lenient value of a text; behind one of odd length stands a NUL. */
  function LooseValue(s: string): (r: seq<byte>)
    ensures |r| == (|s| + 1) / 2
    ensures |s| % 2 == 0 && IsHexText(s) ==> r == HexValue(s)
  {
    seq((|s| + 1) / 2, i requires 0 <= i < (|s| + 1) / 2 =>
      16 * LooseDigit(s[2 * i]) + LooseDigit(if 2 * i + 1 < |s| then s[2 * i + 1] else '\0'))
  }

  /** hex_string_to_bin_fastest, writing from `at` on: the lenient value, and no other byte touched. The table
      ends at 'f', so a character beyond it would be read past the table. */
  method HexStringToBinFastest(src: string, out: array<byte>, at: nat)
    requires forall i :: 0 <= i < |src| ==> src[i] as int < 103
    requires at + (|src| + 1) / 2 <= out.Length
    modifies out
    ensures out[..] == old(out[..at]) + LooseValue(src) + old(out[at + (|src| + 1) / 2..])
  {
    var pos := 0;
    while pos < |src|
      invariant 0 <= pos <= |src| + 1 && pos % 2 == 0
      invariant forall k :: 0 <= k < pos / 2 ==> out[at + k] == LooseValue(src)[k]
      invariant forall k :: 0 <= k < out.Length && !(at <= k < at + pos / 2) ==> out[k] == old(out[k])
    {
      var next := if pos + 1 < |src| then src[pos + 1] else '\0';
      DirectTableDigit(src[pos]);
      DirectTableDigit(next);
      var hi, lo := DIRECT_TABLE[src[pos] as int], DIRECT_TABLE[next as int];
      out[at + pos / 2] := hi * 16 + lo;
      pos := pos + 2;
    }
    assert forall k :: at <= k < at + (|src| + 1) / 2 ==> out[k] == LooseValue(src)[k - at];
  }
}
