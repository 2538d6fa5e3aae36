/** googletest's in-place Fisher-Yates shuffle of a range of a vector. */
module Shuffle {
  import opened Basics

  /** The random generator's answers: at range width w it returns a number below w. */
  predicate InRange(choices: seq<nat>, width: nat) {
    && |choices| == (if width < 2 then 0 else width - 1)
    && forall i :: 0 <= i < |choices| ==> choices[i] < width - i
  }

  function Swap<E>(s: seq<E>, i: nat, j: nat): (r: seq<E>)
    requires i < |s| && j < |s|
    ensures |r| == |s|
  {
    s[i := s[j]][j := s[i]]
  }

  /** What is left to shuffle once element `c` has been swapped to the end. */
  function Remaining<E>(s: seq<E>, c: nat): (r: seq<E>)
    requires c < |s|
    ensures |r| == |s| - 1
    ensures forall k :: 0 <= k < |r| ==> r[k] == if k == c then s[|s| - 1] else s[k]
  {
    Swap(s, c, |s| - 1)[..|s| - 1]
  }

  /** The range after the shuffle: the chosen element goes to the end, then the rest is shuffled. */
  function Shuffled<E>(s: seq<E>, choices: seq<nat>): (r: seq<E>)
    requires InRange(choices, |s|)
    ensures |r| == |s|
    decreases |s|
  {
    if |s| < 2 then s
    else Shuffled(Remaining(s, choices[0]), choices[1..]) + [s[choices[0]]]
  }

  /** Element by element: the last place goes to the element the first choice names, and the others to what the
      remaining choices make of the rest, in which the last element has taken the place of the chosen one. */
  lemma {:induction false} ShuffledAt<E>(s: seq<E>, choices: seq<nat>, k: nat)
    requires InRange(choices, |s|) && 2 <= |s| && k < |s|
    ensures var n, c := |s| - 1, choices[0];
            var rest := if c < n then s[..c] + [s[n]] + s[c + 1..n] else s[..n];
            && |rest| == n && InRange(choices[1..], n)
            && Shuffled(s, choices)[k] == if k == n then s[c] else Shuffled(rest, choices[1..])[k]
  {
    var n, c := |s| - 1, choices[0];
    assert Remaining(s, c) == if c < n then s[..c] + [s[n]] + s[c + 1..n] else s[..n];
  }

  lemma {:induction false} SplitLast<E>(s: seq<E>)
    requires s != []
    ensures multiset(s) == multiset(s[..|s| - 1]) + multiset{s[|s| - 1]}
  {
    assert s == s[..|s| - 1] + [s[|s| - 1]];
  }

  lemma {:induction false} RemainingMultiset<E>(s: seq<E>, c: nat)
    requires c < |s|
    ensures multiset(s) == multiset(Remaining(s, c)) + multiset{s[c]}
  {
    SplitLast(Swap(s, c, |s| - 1));
    assert multiset(Swap(s, c, |s| - 1)) == multiset(s);
  }

  /** For every in-range choice sequence the result is a permutation. */
  lemma {:induction false} ShuffledPermutes<E>(s: seq<E>, choices: seq<nat>)
    requires InRange(choices, |s|)
    ensures multiset(Shuffled(s, choices)) == multiset(s)
    decreases |s|
  {
    hide Remaining;
    if |s| >= 2 {
      RemainingMultiset(s, choices[0]);
      ShuffledPermutes(Remaining(s, choices[0]), choices[1..]);
    }
  }

  lemma {:induction false} RemainingDistinct<E>(s: seq<E>, c: nat)
    requires c < |s| && Distinct(s)
    ensures Distinct(Remaining(s, c))
  {
  }

  /** On distinct elements different choices give different results. */
  lemma {:induction false} ShuffledInjective<E>(s: seq<E>, a: seq<nat>, b: seq<nat>)
    requires InRange(a, |s|) && InRange(b, |s|) && Distinct(s) && Shuffled(s, a) == Shuffled(s, b)
    ensures a == b
    decreases |s|
  {
    hide Remaining;
    if |s| >= 2 {
      var n := |s| - 1;
      assert s[a[0]] == Shuffled(s, a)[n] == Shuffled(s, b)[n] == s[b[0]];
      assert a[0] == b[0];
      var r := Remaining(s, a[0]);
      assert Shuffled(r, a[1..]) == Shuffled(s, a)[..n] == Shuffled(s, b)[..n] == Shuffled(r, b[1..]);
      RemainingDistinct(s, a[0]);
      ShuffledInjective(r, a[1..], b[1..]);
      assert a == [a[0]] + a[1..] && b == [b[0]] + b[1..];
    }
  }

  lemma {:induction false} Cancel<E>(a: multiset<E>, b: multiset<E>, x: E)
    requires a + multiset{x} == b + multiset{x}
    ensures a == b
  {
    assert a == (a + multiset{x}) - multiset{x};
    assert b == (b + multiset{x}) - multiset{x};
  }

  /** The choice that puts the last element of a permutation in its place leaves a permutation of the rest. */
  lemma {:induction false} ChoiceFor<E>(s: seq<E>, r: seq<E>) returns (c: nat)
    requires s != [] && r != [] && multiset(s) == multiset(r)
    ensures c < |s| && s[c] == r[|r| - 1] && multiset(Remaining(s, c)) == multiset(r[..|r| - 1])
  {
    hide Remaining;
    var x := r[|r| - 1];
    assert x in multiset(s);
    c :| 0 <= c < |s| && s[c] == x;
    RemainingMultiset(s, c);
    SplitLast(r);
    Cancel(multiset(Remaining(s, c)), multiset(r[..|r| - 1]), x);
  }

  lemma {:induction false} SameLength<E>(s: seq<E>, r: seq<E>)
    requires multiset(s) == multiset(r)
    ensures |s| == |r| && (|s| < 2 ==> s == r)
  {
    assert |s| == |multiset(s)| == |multiset(r)| == |r|;
    assert |s| == 1 ==> s[0] in multiset(r);
  }

  /** Every permutation is reached by some in-range choices. */
  lemma {:induction false} ShuffledSurjective<E>(s: seq<E>, r: seq<E>) returns (choices: seq<nat>)
    requires multiset(s) == multiset(r)
    ensures InRange(choices, |s|) && Shuffled(s, choices) == r
    decreases |s|
  {
    hide Remaining;
    SameLength(s, r);
    if |s| < 2 {
      choices := [];
    } else {
      var c := ChoiceFor(s, r);
      var rest := ShuffledSurjective(Remaining(s, c), r[..|r| - 1]);
      choices := [c] + rest;
      assert choices[1..] == rest;
      assert r == r[..|r| - 1] + [r[|r| - 1]];
    }
  }

  /** Only the elements from `begin` to `end` changed, and they are shuffled. */
  ghost predicate RangeShuffled<E>(before: seq<E>, after: seq<E>, begin: int, end: int, choices: seq<nat>) {
    && 0 <= begin <= end <= |before| == |after| && InRange(choices, end - begin)
    && after[..begin] == before[..begin] && after[end..] == before[end..]
    && after[begin..end] == Shuffled(before[begin..end], choices)
  }

  /** ShuffleRange: an invalid range fails the check and changes nothing; a valid one shuffles exactly the
      elements from `begin` to `end`. */
  method ShuffleRange<E>(choices: seq<nat>, begin: int, end: int, v: array<E>) returns (ok: bool)
    requires 0 <= begin <= end <= v.Length ==> InRange(choices, end - begin)
    modifies v
    ensures ok == (0 <= begin <= end <= v.Length)
    ensures !ok ==> v[..] == old(v[..])
    ensures ok ==> RangeShuffled(old(v[..]), v[..], begin, end, choices)
  {
    if !(0 <= begin <= v.Length) || !(begin <= end <= v.Length) {
      return false;
    }
    ok := true;
    ghost var orig := v[..];
    var width, i := end - begin, 0;
    ProgressStart(orig, begin, end, choices);
    hide *;
    while width >= 2
      invariant 0 <= i && Progress(orig, v[..], begin, end, width, choices, i)
      decreases width
    {
      PickLast(choices, i, begin, end, width, v, orig);
      width := width - 1;
      i := i + 1;
    }
    ProgressEnd(orig, v[..], begin, end, width, choices, i);
  }

  /** One turn of the loop: the element chosen goes to the end of the part still to shuffle. */
  method PickLast<E>(choices: seq<nat>, i: nat, begin: int, end: int, width: int, v: array<E>, ghost orig: seq<E>)
    requires Progress(orig, v[..], begin, end, width, choices, i) && width >= 2
    modifies v
    ensures Progress(orig, v[..], begin, end, width - 1, choices, i + 1)
  {
    hide *;
    ProgressBounds(orig, v[..], begin, end, width, choices, i);
    var last := begin + width - 1;
    var selected := begin + choices[i];
    ProgressStep(orig, v[..], begin, end, width, choices, i);
    SwapElements(v, selected, last);
  }

  method SwapElements<E>(v: array<E>, i: int, j: int)
    requires 0 <= i < v.Length && 0 <= j < v.Length
    modifies v
    ensures v[..] == Swap(old(v[..]), i, j)
  {
    v[i], v[j] := v[j], v[i];
  }

  /** With `width` elements and the choices from `i` on to go, the range is on its way to the shuffled one. */
  ghost predicate Progress<E>(orig: seq<E>, w: seq<E>, begin: int, end: int, width: int, choices: seq<nat>, i: nat) {
    && 0 <= begin <= begin + width <= end <= |orig| == |w| && i <= |choices|
    && InRange(choices, end - begin) && InRange(choices[i..], width)
    && w[..begin] == orig[..begin] && w[end..] == orig[end..]
    && Shuffled(w[begin..begin + width], choices[i..]) + w[begin + width..end] == Shuffled(orig[begin..end], choices)
  }

  lemma {:induction false} ProgressStart<E>(orig: seq<E>, begin: int, end: int, choices: seq<nat>)
    requires 0 <= begin <= end <= |orig| && InRange(choices, end - begin)
    ensures Progress(orig, orig, begin, end, end - begin, choices, 0)
  {
    hide Shuffled;
    assert choices[0..] == choices;
  }

  lemma {:induction false} ProgressBounds<E>(orig: seq<E>, w: seq<E>, begin: int, end: int, width: int,
                                             choices: seq<nat>, i: nat)
    requires Progress(orig, w, begin, end, width, choices, i) && width >= 2
    ensures 0 <= begin && begin + width <= |w| && i < |choices| && choices[i] < width
  {
    assert choices[i..][0] == choices[i];
  }

  lemma {:induction false} ProgressEnd<E>(orig: seq<E>, w: seq<E>, begin: int, end: int, width: int,
                                          choices: seq<nat>, i: nat)
    requires Progress(orig, w, begin, end, width, choices, i) && width < 2
    ensures RangeShuffled(orig, w, begin, end, choices)
  {
  }

  lemma {:induction false} ProgressStep<E>(orig: seq<E>, w: seq<E>, begin: int, end: int, width: int,
                                           choices: seq<nat>, i: nat)
    requires Progress(orig, w, begin, end, width, choices, i) && width >= 2
    requires i < |choices| && choices[i] < width
    ensures Progress(orig, Swap(w, begin + choices[i], begin + width - 1), begin, end, width - 1, choices, i + 1)
  {
    hide Shuffled;
    var last, c := begin + width - 1, choices[i];
    var w' := Swap(w, begin + c, last);
    var s, tail := w[begin..begin + width], w[begin + width..end];
    assert choices[i..][0] == c && choices[i..][1..] == choices[i + 1..];
    assert w'[..begin] == w[..begin];
    assert w'[end..] == w[end..];
    assert w'[begin..last] == Remaining(s, c);
    assert w'[last..end] == [s[c]] + tail;
    ShuffledStep(s, choices[i..], tail);
  }

  lemma {:induction false} ShuffledStep<E>(s: seq<E>, rest: seq<nat>, tail: seq<E>)
    requires |s| >= 2 && InRange(rest, |s|)
    ensures Shuffled(s, rest) + tail == Shuffled(Remaining(s, rest[0]), rest[1..]) + ([s[rest[0]]] + tail)
  {
  }
}
