/** Definitions several components share. */
module Basics {

  datatype Option<+T> = None | Some(value: T)

  type byte = b: int | 0 <= b < 256

  /** The contents of a C string: what lies before the terminating NUL. */
  type CText = s: string | '\0' !in s

  const TWO64: int := 0x1_0000_0000_0000_0000

  ghost predicate Distinct<T>(s: seq<T>) {
    forall i, j :: 0 <= i < j < |s| ==> s[i] != s[j]
  }

  lemma {:induction false} MulMono(d: int, a: int, b: int)
    requires d >= 0 && a <= b
    ensures d * a <= d * b && a * d <= b * d
  {
  }

  lemma {:induction false} Associative<T>(a: seq<T>, b: seq<T>, c: seq<T>)
    ensures (a + b) + c == a + (b + c)
  {
  }

  predicate IsSpace(c: char) {
    c == ' ' || '\t' <= c <= '\r'
  }

  /** C's white space: the space, the tab, the line feed, the vertical tab, the form feed and the carriage return. */
  lemma {:induction false} SpacesAre(c: char)
    ensures IsSpace(c) <==> c as int in {32, 9, 10, 11, 12, 13}
  {
  }

  /** The characters before the first `c`. */
  function UpTo(s: string, c: char): (r: string)
    ensures r <= s && c !in r && (|r| < |s| ==> s[|r|] == c)
  {
    if s == "" || s[0] == c then "" else [s[0]] + UpTo(s[1..], c)
  }

  lemma {:induction false} UpToIn(a: string, c: char, b: string)
    requires c !in a
    ensures UpTo(a + ([c] + b), c) == a
  {
    if a == "" {
      assert a + ([c] + b) == [c] + b;
    } else {
      UpToIn(a[1..], c, b);
      assert (a + ([c] + b))[1..] == a[1..] + ([c] + b);
      assert a == [a[0]] + a[1..];
    }
  }

  lemma {:induction false} UpToNone(s: string, c: char)
    requires c !in s
    ensures UpTo(s, c) == s
  {
  }
}
