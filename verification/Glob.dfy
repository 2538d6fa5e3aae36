/** glog's glob matcher SafeFNMatch_, against the declarative meaning of `*` and `?`. */
module Glob {

  /** The pattern matches the whole string: `*` stands for any text, `?` for any character. */
  ghost predicate Matches(pat: string, str: string)
    decreases |pat|
  {
    if pat == "" then str == ""
    else if pat[0] == '*' then exists k :: 0 <= k <= |str| && Matches(pat[1..], str[k..])
    else str != "" && (pat[0] == '?' || pat[0] == str[0]) && Matches(pat[1..], str[1..])
  }

  /** What SafeFNMatch_ computes. A `*` that is not the last character of the pattern never tries the empty
      remainder of the string, and a `*` in the string is taken as a literal match of a `*` in the pattern. */
  predicate FnMatch(pat: string, str: string)
    decreases |pat|
  {
    if pat == "" then str == ""
    else if str == "" then pat == "*"
    else if pat[0] == str[0] || pat[0] == '?' then FnMatch(pat[1..], str[1..])
    else if pat[0] == '*' then |pat| == 1 || exists k :: 0 <= k < |str| && FnMatch(pat[1..], str[k..])
    else false
  }

  /** SafeFNMatch_: two nested loops and a recursive call after each `*`. */
  method SafeFnMatch(pattern: string, str: string) returns (r: bool)
    ensures r == FnMatch(pattern, str)
    decreases |pattern|, 0
  {
    var p, s := 0, 0;
    while true
      invariant 0 <= p <= |pattern| && 0 <= s <= |str|
      invariant FnMatch(pattern, str) == FnMatch(pattern[p..], str[s..])
      decreases |pattern| - p
    {
      if p == |pattern| && s == |str| {
        return true;
      }
      if p == |pattern| {
        return false;
      }
      if s == |str| {
        return p + 1 == |pattern| && pattern[p] == '*';
      }
      assert pattern[p..][1..] == pattern[p + 1..] && str[s..][1..] == str[s + 1..];
      if pattern[p] == str[s] || pattern[p] == '?' {
        p := p + 1;
        s := s + 1;
        continue;
      }
      if pattern[p] == '*' {
        if p + 1 == |pattern| {
          return true;
        }
        r := TryRest(pattern[p + 1..], str[s..]);
        return;
      }
      return false;
    }
  }

  /** The inner loop: the rest of the pattern against each non-empty suffix in turn. */
  method TryRest(rest: string, str: string) returns (r: bool)
    requires str != ""
    ensures r == exists k :: 0 <= k < |str| && FnMatch(rest, str[k..])
    decreases |rest|, 1
  {
    var s := 0;
    while true
      invariant 0 <= s < |str|
      invariant forall k :: 0 <= k < s ==> !FnMatch(rest, str[k..])
      decreases |str| - s
    {
      var found := SafeFnMatch(rest, str[s..]);
      if found {
        return true;
      }
      s := s + 1;
      if s == |str| {
        return false;
      }
    }
  }

  // ----- soundness

  /** Whatever the matcher accepts, the pattern matches. */
  lemma {:induction false} Sound(pat: string, str: string)
    requires FnMatch(pat, str)
    ensures Matches(pat, str)
    decreases |pat|
  {
    if pat == "" {
    } else if str == "" {
      assert Matches(pat[1..], str[0..]);
    } else if pat[0] == str[0] || pat[0] == '?' {
      Sound(pat[1..], str[1..]);
    } else if |pat| == 1 {
      assert Matches(pat[1..], str[|str|..]);
    } else {
      var k :| 0 <= k < |str| && FnMatch(pat[1..], str[k..]);
      Sound(pat[1..], str[k..]);
    }
  }

  // ----- completeness on strings without '*'

  predicate EndsInTwoStars(pat: string) {
    |pat| >= 2 && pat[|pat| - 2] == '*' && pat[|pat| - 1] == '*'
  }

  /** Only patterns made of stars match the empty string. */
  lemma {:induction false} MatchesEmpty(pat: string)
    requires Matches(pat, "")
    ensures forall i :: 0 <= i < |pat| ==> pat[i] == '*'
    decreases |pat|
  {
    if pat != "" {
      StarOnly(pat);
      hide Matches;
      MatchesEmpty(pat[1..]);
      assert forall i :: 1 <= i < |pat| ==> pat[i] == pat[1..][i - 1];
    }
  }

  lemma {:induction false} StarOnly(pat: string)
    requires pat != "" && Matches(pat, "")
    ensures pat[0] == '*' && Matches(pat[1..], "")
  {
    var str := "";
    var k :| 0 <= k <= |str| && Matches(pat[1..], str[k..]);
    assert str[k..] == "";
  }

  lemma {:induction false} Complete(pat: string, str: string)
    requires Matches(pat, str) && '*' !in str && !EndsInTwoStars(pat)
    ensures FnMatch(pat, str)
    decreases |pat|
  {
    if pat == "" {
    } else if str == "" {
      MatchesEmpty(pat);
      assert |pat| == 1;
    } else if pat[0] != '*' {
      Complete(pat[1..], str[1..]);
    } else if |pat| > 1 {
      var k :| 0 <= k <= |str| && Matches(pat[1..], str[k..]);
      if k < |str| {
        Complete(pat[1..], str[k..]);
      } else {
        AllStarsLeft(pat);
      }
    }
  }

  /** The empty remainder, which the code does not try, matters only to patterns ending in two stars. */
  lemma {:induction false} AllStarsLeft(pat: string)
    requires |pat| > 1 && pat[0] == '*' && Matches(pat[1..], "")
    ensures EndsInTwoStars(pat)
  {
    MatchesEmpty(pat[1..]);
    hide Matches;
    assert pat[|pat| - 1] == pat[1..][|pat| - 2];
    if |pat| > 2 {
      assert pat[|pat| - 2] == pat[1..][|pat| - 3];
    }
  }

  // ----- and the patterns for which it fails

  /** The number of pattern characters other than `*`. */
  function Literals(pat: string): (n: nat) {
    if pat == "" then 0 else (if pat[0] == '*' then 0 else 1) + Literals(pat[1..])
  }

  /** A pattern ending in two stars needs at least one character beyond its literals. */
  lemma {:induction false} TwoStarsNeedMore(pat: string, str: string)
    requires EndsInTwoStars(pat) && |str| <= Literals(pat)
    ensures !FnMatch(pat, str)
    decreases |pat|
  {
    assert |pat| == 2 ==> pat == "**";
    assert Literals("**") == 0;
    if str != "" {
      assert EndsInTwoStars(pat[1..]);
      if pat[0] == str[0] || pat[0] == '?' {
        TwoStarsNeedMore(pat[1..], str[1..]);
      } else if pat[0] == '*' {
        forall k | 0 <= k < |str| ensures !FnMatch(pat[1..], str[k..]) {
          TwoStarsNeedMore(pat[1..], str[k..]);
        }
      }
    }
  }

  /** A star-free string of exactly the literals of the pattern, which the pattern matches. */
  function Instance(pat: string): (r: string)
    ensures |r| == Literals(pat) && '*' !in r
  {
    if pat == "" then ""
    else if pat[0] == '*' then Instance(pat[1..])
    else [if pat[0] == '?' then 'a' else pat[0]] + Instance(pat[1..])
  }

  lemma {:induction false} InstanceMatches(pat: string)
    ensures Matches(pat, Instance(pat))
    decreases |pat|
  {
    if pat != "" {
      InstanceMatches(pat[1..]);
      if pat[0] == '*' {
        assert Instance(pat)[0..] == Instance(pat[1..]);
      } else {
        assert Instance(pat)[1..] == Instance(pat[1..]);
      }
    }
  }

  /** The code meets the glob semantics on all strings without `*` exactly when the pattern does not end
      in two stars. */
  lemma {:induction false} ExactOnPlainStrings(pat: string)
    ensures (forall str :: '*' !in str ==> FnMatch(pat, str) == Matches(pat, str)) <==> !EndsInTwoStars(pat)
  {
    if EndsInTwoStars(pat) {
      TwoStarsNeedMore(pat, Instance(pat));
      InstanceMatches(pat);
    } else {
      forall str | '*' !in str ensures FnMatch(pat, str) == Matches(pat, str) {
        if FnMatch(pat, str) {
          Sound(pat, str);
        } else if Matches(pat, str) {
          Complete(pat, str);
        }
      }
    }
  }

  // ----- every pattern, pair by pair

  /** A pattern with a `?` left does not match the empty string. */
  lemma {:induction false} NeedsOneMore(t: string)
    ensures !Matches(t + "?*", "")
  {
    assert (t + "?*")[|t|] == '?';
    if Matches(t + "?*", "") {
      MatchesEmpty(t + "?*");
    }
  }

  lemma {:induction false} TwoStarsExact(t: string, str: string)
    requires '*' !in str
    ensures FnMatch(t + "**", str) <==> Matches(t + "?*", str)
    decreases |t|, 0
  {
    var pat, glob := t + "**", t + "?*";
    if t == "" {
      assert pat == "**" && glob == "?*";
      OneOrMore(str);
    } else {
      assert pat[1..] == t[1..] + "**" && glob[1..] == t[1..] + "?*" && pat[0] == glob[0] == t[0];
      if str == "" {
        NeedsOneMore(t);
      } else if t[0] == '*' {
        StarStep(t[1..], pat, glob, str);
      } else if t[0] == str[0] || t[0] == '?' {
        TwoStarsExact(t[1..], str[1..]);
      }
    }
  }

  lemma {:induction false} OneOrMore(str: string)
    requires '*' !in str
    ensures FnMatch("**", str) == Matches("?*", str) == (str != "")
  {
    assert "**"[1..] == "*" && "?*"[1..] == "*" && "*"[1..] == "";
    if str != "" {
      assert FnMatch("*", str[0..]);
      assert Matches("", str[1..][|str| - 1..]);
      assert Matches("*", str[1..]);
    }
  }

  lemma {:induction false} StarStep(t: string, pat: string, glob: string, str: string)
    requires '*' !in str && str != "" && pat == "*" + (t + "**") && glob == "*" + (t + "?*")
    ensures FnMatch(pat, str) <==> Matches(glob, str)
    decreases |t|, 1
  {
    var p, g := t + "**", t + "?*";
    assert pat[1..] == p && glob[1..] == g;
    forall k | 0 <= k < |str| ensures FnMatch(p, str[k..]) <==> Matches(g, str[k..]) {
      TwoStarsExact(t, str[k..]);
    }
    assert str[|str|..] == "";
    NeedsOneMore(t);
  }

  /** The glob a pattern amounts to in the code: a `**` at its end asks for at least one character. */
  function Effective(pat: string): (r: string) {
    if EndsInTwoStars(pat) then pat[..|pat| - 2] + "?*" else pat
  }

  /** On every string without stars, every pattern is taken for exactly that glob. */
  lemma {:induction false} ExactMeaning(pat: string, str: string)
    requires '*' !in str
    ensures FnMatch(pat, str) <==> Matches(Effective(pat), str)
  {
    if EndsInTwoStars(pat) {
      var t := pat[..|pat| - 2];
      assert pat == t + "**";
      TwoStarsExact(t, str);
    } else if Matches(pat, str) {
      Complete(pat, str);
    } else if FnMatch(pat, str) {
      Sound(pat, str);
    }
  }

  // ----- strings that may contain '*'

  lemma {:induction false} PlainPatternExact(pat: string, str: string)
    requires '*' !in pat
    ensures FnMatch(pat, str) == Matches(pat, str)
    ensures Matches(pat, str) ==> |pat| == |str|
    decreases |pat|
  {
    if pat != "" && str != "" {
      PlainPatternExact(pat[1..], str[1..]);
    }
  }

  /** The pattern taken as a string, with a character inserted after its last star. */
  function Spoiler(pat: string): (r: string)
    requires '*' in pat
  {
    var c := if pat[0] == '?' then 'a' else pat[0];
    if '*' in pat[1..] then [c] + Spoiler(pat[1..])
    else "*a" + Instance(pat[1..])
  }

  lemma {:induction false} PlainInstance(pat: string)
    requires '*' !in pat
    ensures Matches(pat, Instance(pat)) && |Instance(pat)| == |pat|
    decreases |pat|
  {
    InstanceMatches(pat);
    PlainPatternExact(pat, Instance(pat));
  }

  lemma {:induction false} SpoilerMatches(pat: string)
    requires '*' in pat
    ensures Matches(pat, Spoiler(pat))
    decreases |pat|
  {
    var s := Spoiler(pat);
    assert pat == [pat[0]] + pat[1..];
    if '*' in pat[1..] {
      SpoilerMatches(pat[1..]);
      assert s[1..] == Spoiler(pat[1..]);
    } else {
      PlainInstance(pat[1..]);
      assert s[2..] == Instance(pat[1..]);
    }
  }

  lemma {:induction false} SpoilerRefused(pat: string)
    requires '*' in pat
    ensures !FnMatch(pat, Spoiler(pat))
    decreases |pat|
  {
    var s := Spoiler(pat);
    assert pat == [pat[0]] + pat[1..];
    if '*' in pat[1..] {
      SpoilerRefused(pat[1..]);
      assert s[1..] == Spoiler(pat[1..]);
    } else {
      PlainInstance(pat[1..]);
      assert s[1..] == "a" + Instance(pat[1..]);
      PlainPatternExact(pat[1..], s[1..]);
    }
  }

  /** On all strings, those with `*` included, the code is exact just for patterns without `*`. */
  lemma {:induction false} ExactOnAllStrings(pat: string)
    ensures (forall str :: FnMatch(pat, str) == Matches(pat, str)) <==> '*' !in pat
  {
    if '*' in pat {
      SpoilerMatches(pat);
      SpoilerRefused(pat);
    } else {
      forall str ensures FnMatch(pat, str) == Matches(pat, str) {
        PlainPatternExact(pat, str);
      }
    }
  }

  // ----- every pattern on every string

  /** The text that the characters of a pattern stand for, put together. */
  function Together(parts: seq<string>): (r: string) {
    if parts == [] then "" else parts[0] + Together(parts[1..])
  }

  /** Each character of the pattern stands for a part of its own: a `*` for any text, a `?` for one character, any
      other for itself. */
  ghost predicate Aligned(pat: string, parts: seq<string>) {
    && |parts| == |pat|
    && forall i :: 0 <= i < |pat| ==> pat[i] == '*' || (|parts[i]| == 1 && (pat[i] == '?' || parts[i][0] == pat[i]))
  }

  /** The choices the code allows a `*` with `rest` of the string before it: nothing left, for a `*` that ends the
      pattern; exactly a `*` that comes next in the string; and otherwise any text, but for a `*` that does not
      end the pattern one that leaves something over. */
  ghost predicate Choice(last: bool, part: string, rest: string, after: string) {
    if rest == "" then last
    else if rest[0] == '*' then part == "*"
    else last || after != ""
  }

  ghost predicate Committed(pat: string, parts: seq<string>)
    requires |parts| == |pat|
  {
    forall i :: 0 <= i < |pat| && pat[i] == '*' ==>
                  Choice(i + 1 == |pat|, parts[i], Together(parts[i..]), Together(parts[i + 1..]))
  }

  lemma {:induction false} AlignedTail(pat: string, parts: seq<string>)
    requires pat != "" && Aligned(pat, parts)
    ensures Aligned(pat[1..], parts[1..]) && Together(parts) == parts[0] + Together(parts[1..])
    ensures Committed(pat, parts) ==> Committed(pat[1..], parts[1..])
  {
    hide Together, Choice;
    if Committed(pat, parts) {
      forall i | 0 <= i < |pat[1..]| && pat[1..][i] == '*'
        ensures Choice(i + 1 == |pat[1..]|, parts[1..][i], Together(parts[1..][i..]), Together(parts[1..][i + 1..]))
      {
        assert parts[1..][i..] == parts[i + 1..] && parts[1..][i + 1..] == parts[i + 2..];
        assert pat[i + 1] == '*';
        assert Choice(i + 2 == |pat|, parts[i + 1], Together(parts[i + 1..]), Together(parts[i + 1 + 1..]));
      }
    }
    assert Together(parts) == parts[0] + Together(parts[1..]) by { TogetherCons(parts); }
  }

  lemma {:induction false} TogetherCons(parts: seq<string>)
    requires parts != []
    ensures Together(parts) == parts[0] + Together(parts[1..])
  {
  }

  lemma {:induction false} AlignedCons(c: char, pat: string, part: string, parts: seq<string>)
    requires Aligned(pat, parts) && (c == '*' || (|part| == 1 && (c == '?' || part[0] == c)))
    ensures Aligned([c] + pat, [part] + parts)
    ensures Together([part] + parts) == part + Together(parts)
    ensures Committed(pat, parts) && (c == '*' ==> Choice(pat == "", part, part + Together(parts), Together(parts)))
            ==> Committed([c] + pat, [part] + parts)
  {
    var p, ps := [c] + pat, [part] + parts;
    assert ps[1..] == parts;
    TogetherCons(ps);
    hide Together, Choice;
    if Committed(pat, parts) && (c == '*' ==> Choice(pat == "", part, part + Together(parts), Together(parts))) {
      forall i | 0 <= i < |p| && p[i] == '*'
        ensures Choice(i + 1 == |p|, ps[i], Together(ps[i..]), Together(ps[i + 1..]))
      {
        if i == 0 {
          assert ps[0..] == ps;
        } else {
          assert ps[i..] == parts[i - 1..] && ps[i + 1..] == parts[i..];
          assert pat[i - 1] == '*';
          assert Choice(i - 1 + 1 == |pat|, parts[i - 1], Together(parts[i - 1..]), Together(parts[i - 1 + 1..]));
        }
      }
    }
  }

  /** What the code accepts has an alignment of the kind it allows. */
  lemma {:induction false} FnMatchAligns(pat: string, str: string) returns (parts: seq<string>)
    requires FnMatch(pat, str)
    ensures Aligned(pat, parts) && Committed(pat, parts) && Together(parts) == str
    decreases |pat|
  {
    if pat == "" {
      parts := [];
      return;
    }
    var part, rest := "", [];
    if str == "" {
      part, rest := "", [];
    } else if pat[0] == str[0] || pat[0] == '?' {
      part := [str[0]];
      rest := FnMatchAligns(pat[1..], str[1..]);
      assert str == part + str[1..];
    } else if |pat| == 1 {
      part, rest := str, [];
      assert str == part + "";
    } else {
      var k :| 0 <= k < |str| && FnMatch(pat[1..], str[k..]);
      part := str[..k];
      rest := FnMatchAligns(pat[1..], str[k..]);
      assert str == part + str[k..];
    }
    assert pat == [pat[0]] + pat[1..];
    AlignedCons(pat[0], pat[1..], part, rest);
    parts := [part] + rest;
  }

  /** And nothing else has. */
  lemma {:induction false} AlignmentAccepted(pat: string, parts: seq<string>)
    requires Aligned(pat, parts) && Committed(pat, parts)
    ensures FnMatch(pat, Together(parts))
    decreases |pat|
  {
    if pat != "" {
      AlignedTail(pat, parts);
      AlignmentAccepted(pat[1..], parts[1..]);
      var str, part, after := Together(parts), parts[0], Together(parts[1..]);
      assert parts[0..] == parts;
      assert str == part + after && after == str[|part|..];
      if pat[0] == '*' {
        assert Choice(|pat| == 1, part, str, after);
      } else {
        assert str[0] == part[0];
      }
    }
  }

  /** Glob semantics said with alignments. */
  lemma {:induction false} MatchAligns(pat: string, str: string) returns (parts: seq<string>)
    requires Matches(pat, str)
    ensures Aligned(pat, parts) && Together(parts) == str
    decreases |pat|
  {
    if pat == "" {
      parts := [];
    } else {
      var k := 1;
      if pat[0] == '*' {
        k :| 0 <= k <= |str| && Matches(pat[1..], str[k..]);
      }
      var rest := MatchAligns(pat[1..], str[k..]);
      assert pat == [pat[0]] + pat[1..] && str == str[..k] + str[k..];
      AlignedCons(pat[0], pat[1..], str[..k], rest);
      parts := [str[..k]] + rest;
    }
  }

  lemma {:induction false} AlignmentMatches(pat: string, parts: seq<string>)
    requires Aligned(pat, parts)
    ensures Matches(pat, Together(parts))
    decreases |pat|
  {
    if pat != "" {
      AlignedTail(pat, parts);
      AlignmentMatches(pat[1..], parts[1..]);
      var str := Together(parts);
      assert str[|parts[0]|..] == Together(parts[1..]);
    }
  }

  /** For every pattern and every string, stars included: the glob matches iff the string can be shared out among
      the characters of the pattern, and the code accepts iff it can be in a way that it allows. */
  lemma {:induction false} ExactByAlignment(pat: string, str: string)
    ensures Matches(pat, str) <==> exists parts :: Aligned(pat, parts) && Together(parts) == str
    ensures FnMatch(pat, str)
       <==> exists parts :: Aligned(pat, parts) && Together(parts) == str && Committed(pat, parts)
  {
    if Matches(pat, str) {
      var parts := MatchAligns(pat, str);
    }
    if FnMatch(pat, str) {
      var parts := FnMatchAligns(pat, str);
    }
    forall parts | Aligned(pat, parts) && Together(parts) == str
      ensures Matches(pat, str) && (Committed(pat, parts) ==> FnMatch(pat, str))
    {
      AlignmentMatches(pat, parts);
      if Committed(pat, parts) {
        AlignmentAccepted(pat, parts);
      }
    }
  }
}
