/** What each kind of line means to the INI parser, said of the lines themselves. */
module IniLines {
  import opened Basics
  import opened IniFile
  import opened IniRoundTrip

  // ----- lines that change nothing

  /** The line has no effect wherever it stands. */
  ghost predicate Ignored(line: string) {
    |line| < 256 && forall st :: ProcessLine(st, line) == Ok(st)
  }

  /** An ignored line can be left out of any text. */
  lemma {:induction false} IgnoredAnywhere(a: seq<string>, line: string, b: seq<string>, st: State)
    requires Ignored(line)
    ensures ParseLines(a + [line] + b, st) == ParseLines(a + b, st)
  {
    hide ProcessLine;
    ParseConcat(a + [line], b, st);
    ParseConcat(a, [line], st);
    ParseConcat(a, b, st);
    var r := ParseLines(a, st);
    if r.Ok? {
      assert [line][1..] == [];
      assert ParseLines([line], r.state) == Ok(r.state);
    }
  }

  /** Lines that begin with `#` or `//` are comments. */
  lemma {:induction false} CommentsIgnored(line: string)
    requires 0 < |line| < 256 && (line[0] == '#' || (|line| >= 2 && line[0] == '/' && line[1] == '/'))
    ensures Ignored(line)
  {
    CutKeeps(line, 1);
    if |line| >= 2 && line[1] != '\0' {
      CutKeeps(line, 2);
    }
  }

  lemma {:induction false} CutKeeps(line: string, n: nat)
    requires n <= |line| && forall i :: 0 <= i < n ==> line[i] != '\0'
    ensures |CutNul(line)| >= n && forall i :: 0 <= i < n ==> CutNul(line)[i] == line[i]
  {
  }

  /** So are empty lines, and a key without `=` or without a value has no effect either. */
  lemma {:induction false} NoValueIgnored(k: string)
    requires '=' !in k && '\0' !in k && |k| < 255 && (k != "" ==> k[0] != '[')
    ensures Ignored(k) && (k != "" ==> Ignored(k + "="))
  {
    CutNothing(k);
    CutNothing(k + "=");
    if k != "" {
      UpToNone(k, '=');
      assert k + "=" == k + (['='] + "");
      UpToIn(k, '=', "");
    }
  }

  // ----- sections

  /** A section line, with whatever white space behind it, selects a new, empty section. Its name is what stands
      between the bracket and the last character, which need not be a bracket. */
  lemma {:induction false} SectionSelected(body: string, spaces: string, st: State)
    requires body != "" && '\0' !in body && !IsSpace(body[|body| - 1]) && AllSpace(spaces)
    ensures var name := body[..|body| - 1];
            ProcessLine(st, "[" + body + spaces) == Ok(State(st.sections[name := map[]], Some(name)))
  {
    var t := "[" + body;
    var l := t + spaces;
    CutNothing(l);
    TrimSpaces(t, spaces);
    assert t[|t| - 1] == body[|body| - 1] && TrimEnd(t) == t;
    assert t[1..|t| - 1] == body[..|body| - 1];
  }

  lemma {:induction false} TrimSpaces(t: string, spaces: string)
    requires AllSpace(spaces)
    ensures TrimEnd(t + spaces) == TrimEnd(t)
    decreases |spaces|
  {
    if spaces == "" {
      assert t + spaces == t;
    } else {
      var n := |spaces| - 1;
      assert (t + spaces)[..|t| + n] == t + spaces[..n];
      TrimSpaces(t, spaces[..n]);
    }
  }

  /** An opening bracket with nothing but white space behind it makes the code read before the line. */
  lemma {:induction false} BareBracketFaults(spaces: string, st: State)
    requires AllSpace(spaces)
    ensures ProcessLine(st, "[" + spaces) == Fault
  {
    CutNothing("[" + spaces);
    TrimSpaces("[", spaces);
    assert TrimEnd("[") == "[";
  }

  // ----- pairs

  /** `st` with one pair more in the selected section, and nothing else changed. */
  ghost predicate Stores(st: State, key: string, value: string, r: State) {
    && st.current.Some? && st.current.value in st.sections && r.current == st.current
    && r.sections.Keys == st.sections.Keys
    && (forall s :: s in st.sections && s != st.current.value ==> r.sections[s] == st.sections[s])
    && var before, after := st.sections[st.current.value], r.sections[st.current.value];
    && after.Keys == before.Keys + {key} && after[key] == value
    && forall k :: k in before && k != key ==> after[k] == before[k]
  }

  /** A pair is stored in the section selected last, over an older value of the key; without a section the code
      writes through an uninitialised pointer. Equals signs before the key are skipped, and the value is all
      that follows the first `=` behind it. */
  lemma {:induction false} PairStored(equals: string, k: string, v: string, st: State)
    requires (forall i :: 0 <= i < |equals| ==> equals[i] == '=') && '=' !in k && '\0' !in k && '\0' !in v
    requires k != "" && v != "" && (equals == "" ==> k[0] != '[' && !IsComment(k))
    ensures var r := ProcessLine(st, equals + (k + "=" + v));
            if st.current.Some? && st.current.value in st.sections then r.Ok? && Stores(st, Unindent(k), v, r.state)
            else r == Fault
  {
    var pair := k + "=" + v;
    var l := equals + pair;
    CutNothing(l);
    SkipThem(equals, pair);
    FirstCharacters(equals, k, v);
    assert pair == k + (['='] + v);
    UpToIn(k, '=', v);
    hide UpTo, Unindent, SkipEquals, Assign, Stores;
    assert pair[|k| + 1..] == v;
    assert ProcessLine(st, l) == Assign(st, Unindent(k), v);
    AssignStores(st, Unindent(k), v);
  }

  lemma {:induction false} AssignStores(st: State, key: string, v: string)
    ensures var r := Assign(st, key, v);
            if st.current.Some? && st.current.value in st.sections then r.Ok? && Stores(st, key, v, r.state)
            else r == Fault
  {
  }

  lemma {:induction false} FirstCharacters(equals: string, k: string, v: string)
    requires (forall i :: 0 <= i < |equals| ==> equals[i] == '=') && k != ""
    requires equals == "" ==> k[0] != '[' && !IsComment(k)
    ensures var l := equals + (k + "=" + v); l != "" && l[0] != '[' && !IsComment(l)
  {
    var l := equals + (k + "=" + v);
    if equals == "" {
      assert l[0] == k[0] && l[1] == if |k| > 1 then k[1] else '=';
    } else {
      assert l[0] == equals[0];
    }
  }

  lemma {:induction false} SkipThem(equals: string, rest: string)
    requires (forall i :: 0 <= i < |equals| ==> equals[i] == '=') && (rest != "" ==> rest[0] != '=')
    ensures SkipEquals(equals + rest) == rest
    decreases |equals|
  {
    if equals == "" {
      assert equals + rest == rest;
    } else {
      assert (equals + rest)[1..] == equals[1..] + rest;
      SkipThem(equals[1..], rest);
    }
  }

  /** A line of nothing but equals signs leaves strtok without a token, which the code then measures. */
  lemma {:induction false} OnlyEqualsFaults(equals: string, st: State)
    requires equals != "" && forall i :: 0 <= i < |equals| ==> equals[i] == '='
    ensures ProcessLine(st, equals) == Fault
  {
    CutNothing(equals);
    SkipThem(equals, "");
    assert equals + "" == equals;
  }

  // ----- all lines

  /** What follows a NUL in a line is not seen. */
  lemma {:induction false} CutAtNul(line: string, junk: string, st: State)
    requires '\0' !in line
    ensures ProcessLine(st, line + (['\0'] + junk)) == ProcessLine(st, line)
  {
    UpToIn(line, '\0', junk);
    CutNothing(line);
  }

  /** A line of 256 characters or more stops the parser for good; no shorter one does. */
  lemma {:induction false} HangIff(a: seq<string>, line: string, b: seq<string>, st: State)
    requires ParseLines(a, st).Ok?
    ensures |line| >= 256 ==> ParseLines(a + [line] + b, st) == Hang
    ensures |line| < 256 && !ProcessLine(ParseLines(a, st).state, line).Ok? ==>
              ParseLines(a + [line] + b, st) == ProcessLine(ParseLines(a, st).state, line)
    ensures |line| < 256 ==> !ProcessLine(st, line).Hang?
  {
    hide ProcessLine;
    NotHang(st, line);
    assert a + [line] + b == a + ([line] + b);
    ParseConcat(a, [line] + b, st);
    assert ([line] + b)[0] == line && ([line] + b)[1..] == b;
  }
}
