/** Newline-terminated lines of a text, and the unfinished remainder after the last newline. */
module TextLines {

  function FindNewlineFrom(s: string, k: nat): (i: nat)
    requires k <= |s|
    ensures k <= i <= |s|
    ensures i < |s| ==> s[i] == '\n'
    ensures forall j :: k <= j < i ==> s[j] != '\n'
    decreases |s| - k
  {
    if k == |s| || s[k] == '\n' then k else FindNewlineFrom(s, k + 1)
  }

  /** std::find for a newline: the first position holding one, or the length. */
  function FindNewline(s: string): (i: nat)
    ensures i <= |s|
    ensures i < |s| ==> s[i] == '\n'
    ensures forall j :: 0 <= j < i ==> s[j] != '\n'
  {
    FindNewlineFrom(s, 0)
  }

  predicate NewlineFree(ls: seq<string>) {
    forall i :: 0 <= i < |ls| ==> '\n' !in ls[i]
  }

  /** The complete lines of `s`, without their newlines. */
  function Lines(s: string): (r: seq<string>)
    ensures NewlineFree(r)
    decreases |s|
  {
    var i := FindNewline(s);
    if i == |s| then [] else [s[..i]] + Lines(s[i + 1..])
  }

  /** What follows the last newline of `s`. */
  function Rest(s: string): (r: string)
    ensures '\n' !in r
    decreases |s|
  {
    var i := FindNewline(s);
    if i == |s| then s else Rest(s[i + 1..])
  }

  /** The text made of the given lines, each ended by a newline. */
  function Join(ls: seq<string>): (r: string)
  {
    if ls == [] then "" else ls[0] + "\n" + Join(ls[1..])
  }

  lemma {:induction false} JoinCons(head: string, ls: seq<string>)
    ensures Join([head] + ls) == head + "\n" + Join(ls)
  {
  }

  lemma {:induction false} Regroup(head: string, a: string, b: string)
    ensures head + "\n" + (a + b) == (head + "\n" + a) + b
  {
  }

  lemma {:induction false} SplitThenJoin(s: string)
    ensures s == Join(Lines(s)) + Rest(s)
    decreases |s|
  {
    var i := FindNewline(s);
    if i == |s| {
      assert Join([]) + s == s;
    } else {
      var tail := s[i + 1..];
      SplitThenJoin(tail);
      JoinCons(s[..i], Lines(tail));
      Regroup(s[..i], Join(Lines(tail)), Rest(tail));
      assert s == s[..i] + "\n" + tail;
    }
  }

  lemma {:induction false} FindNewlineAt(a: string, b: string)
    requires '\n' !in a
    ensures FindNewline(a + "\n" + b) == |a|
  {
    var s := a + "\n" + b;
    assert s[|a|] == '\n';
    assert forall j :: 0 <= j < |a| ==> s[j] == a[j];
  }

  /** Splitting a joined text gives back the lines and the remainder: framing is unambiguous. */
  lemma {:induction false} JoinThenSplit(ls: seq<string>, rest: string)
    requires NewlineFree(ls) && '\n' !in rest
    ensures Lines(Join(ls) + rest) == ls && Rest(Join(ls) + rest) == rest
    decreases |ls|
  {
    if ls == [] {
      assert Join(ls) + rest == rest;
    } else {
      var tail := Join(ls[1..]) + rest;
      var s := ls[0] + "\n" + tail;
      assert Join(ls) + rest == s;
      FindNewlineAt(ls[0], tail);
      assert s[..|ls[0]|] == ls[0] && s[|ls[0]| + 1..] == tail;
      JoinThenSplit(ls[1..], rest);
    }
  }

  lemma {:induction false} JoinConcat(a: seq<string>, b: seq<string>)
    ensures Join(a + b) == Join(a) + Join(b)
    decreases |a|
  {
    if a == [] {
      assert a + b == b;
    } else {
      assert (a + b)[1..] == a[1..] + b;
      JoinConcat(a[1..], b);
    }
  }

  /** Appending text keeps the lines that are already complete. */
  lemma {:induction false} LinesExtend(a: string, b: string)
    ensures Lines(a) <= Lines(a + b)
    ensures Lines(a + b) == Lines(a) + Lines(Rest(a) + b)
  {
    var more, rest := Lines(Rest(a) + b), Rest(Rest(a) + b);
    calc {
      a + b;
      { SplitThenJoin(a); }
      (Join(Lines(a)) + Rest(a)) + b;
      Join(Lines(a)) + (Rest(a) + b);
      { SplitThenJoin(Rest(a) + b); }
      Join(Lines(a)) + (Join(more) + rest);
      (Join(Lines(a)) + Join(more)) + rest;
      { JoinConcat(Lines(a), more); }
      Join(Lines(a) + more) + rest;
    }
    JoinThenSplit(Lines(a) + more, rest);
  }

  /** Taking one line off the front: what the client does with std::find and consume. */
  lemma {:induction false} LinesStep(s: string)
    requires '\n' in s
    ensures FindNewline(s) < |s| && Lines(s) == [s[..FindNewline(s)]] + Lines(s[FindNewline(s) + 1..])
  {
  }

}
