/** Saving an INI object and parsing the file back: exactly which contents survive. */
module IniRoundTrip {
  import opened Basics
  import opened TextLines
  import opened IniFile

  predicate Clean(s: string) {
    '\n' !in s && '\0' !in s
  }

  predicate AllSpace(s: string) {
    forall i :: 0 <= i < |s| ==> IsSpace(s[i])
  }

  /** What a parsed key can look like. */
  predicate ShapedKey(k: string) {
    k != "" && Clean(k) && '=' !in k && (!IsSpace(k[0]) || AllSpace(k))
  }

  /** A key whose line is taken neither for a section nor for a comment. */
  predicate PlainKey(k: string) {
    k != "" && k[0] != '[' && !IsComment(k)
  }

  predicate ShapedValue(v: string) {
    v != "" && Clean(v)
  }

  predicate GoodName(n: string) {
    Clean(n) && |SectionLine(n)| < 256
  }

  predicate GoodPair(p: Pair) {
    ShapedKey(p.key) && PlainKey(p.key) && ShapedValue(p.value) && |PairLine(p)| < 256
  }

  // ----- the lines of a saved file

  function PairLines(ps: seq<Pair>): (r: seq<string>)
    ensures |r| == |ps|
    ensures forall i :: 0 <= i < |ps| ==> r[i] == PairLine(ps[i])
  {
    seq(|ps|, i requires 0 <= i < |ps| => PairLine(ps[i]))
  }

  function SectionLines(s: Section): (r: seq<string>) {
    if s.pairs == [] then [] else [SectionLine(s.name)] + PairLines(s.pairs)
  }

  function OrderLines(order: seq<Section>): (r: seq<string>) {
    if order == [] then [] else SectionLines(order[0]) + OrderLines(order[1..])
  }

  lemma {:induction false} CutNothing(s: string)
    requires '\0' !in s
    ensures CutNul(s) == s
    decreases |s|
  {
  }

  predicate CleanPair(p: Pair) {
    Clean(p.key) && Clean(p.value)
  }

  predicate CleanPairs(ps: seq<Pair>) {
    forall i :: 0 <= i < |ps| ==> CleanPair(ps[i])
  }

  /** Names, keys and values of the sections that are written have neither newline nor NUL. */
  predicate CleanOrder(order: seq<Section>) {
    forall i :: 0 <= i < |order| && order[i].pairs != [] ==> Clean(order[i].name) && CleanPairs(order[i].pairs)
  }

  lemma {:induction false} PairsTextIsJoin(ps: seq<Pair>)
    requires CleanPairs(ps)
    ensures PairsText(ps) == Join(PairLines(ps)) && NewlineFree(PairLines(ps))
    decreases |ps|
  {
    forall i | 0 <= i < |ps| ensures '\n' !in PairLine(ps[i]) {
      assert CleanPair(ps[i]);
    }
    if ps != [] {
      PairsTextIsJoin(ps[1..]);
      assert CleanPair(ps[0]);
      CutNothing(PairLine(ps[0]) + "\n");
      assert PairLines(ps)[1..] == PairLines(ps[1..]);
    }
  }

  lemma {:induction false} TextIsJoin(order: seq<Section>)
    requires CleanOrder(order)
    ensures SavedText(order) == Join(OrderLines(order)) && NewlineFree(OrderLines(order))
    decreases |order|
  {
    hide CutNul, PairLines, PairsText, Join;
    if order == [] {
      assert Join([]) == "" by { JoinNone(); }
    } else {
      var s := order[0];
      assert CleanOrder(order[1..]);
      TextIsJoin(order[1..]);
      SectionTextIsJoin(s);
      JoinConcat(SectionLines(s), OrderLines(order[1..]));
    }
  }

  lemma {:induction false} JoinNone()
    ensures Join([]) == ""
  {
  }

  lemma {:induction false} SectionTextIsJoin(s: Section)
    requires s.pairs != [] ==> Clean(s.name) && CleanPairs(s.pairs)
    ensures SectionText(s) == Join(SectionLines(s)) && NewlineFree(SectionLines(s))
  {
    if s.pairs != [] {
      PairsTextIsJoin(s.pairs);
      hide CutNul, PairsText;
      CutNothing(SectionLine(s.name) + "\n");
      JoinCons(SectionLine(s.name), PairLines(s.pairs));
    }
  }

  /** A NUL in a saved value cuts its line there, newline included. */
  lemma {:induction false} ValueCutAtNul(name: string, k: string, v: string, rest: string)
    requires '\0' !in name && '\0' !in k && '\0' !in v
    ensures SavedText([Section(name, [Pair(k, v + (['\0'] + rest))])]) == (SectionLine(name) + "\n") + (k + "=" + v)
  {
    var p := Pair(k, v + (['\0'] + rest));
    CutNothing(SectionLine(name) + "\n");
    UpToIn(k + "=" + v, '\0', rest + "\n");
    hide UpTo, SavedText;
    assert PairLine(p) + "\n" == (k + "=" + v) + (['\0'] + (rest + "\n"));
    OneSection(Section(name, [p]), p);
  }

  /** And so does one in a section's name. */
  lemma {:induction false} NameCutAtNul(name: string, rest: string, k: string, v: string)
    requires '\0' !in name && '\0' !in k && '\0' !in v
    ensures SavedText([Section(name + (['\0'] + rest), [Pair(k, v)])]) == ("[" + name) + (PairLine(Pair(k, v)) + "\n")
  {
    var p, n := Pair(k, v), name + (['\0'] + rest);
    CutNothing(PairLine(p) + "\n");
    UpToIn("[" + name, '\0', rest + "]\n");
    hide UpTo, SavedText, PairLine;
    assert SectionLine(n) + "\n" == ("[" + name) + (['\0'] + (rest + "]\n"));
    OneSection(Section(n, [p]), p);
  }

  lemma {:induction false} OneSection(s: Section, p: Pair)
    requires s.pairs == [p]
    ensures SavedText([s]) == CutNul(SectionLine(s.name) + "\n") + CutNul(PairLine(p) + "\n")
  {
    hide CutNul;
    assert [s][1..] == [] && [p][1..] == [];
    assert PairsText([p]) == CutNul(PairLine(p) + "\n") + PairsText([]);
    assert SavedText([s]) == SectionText(s) + SavedText([]);
  }

  // ----- parsing well-formed lines

  lemma {:induction false} ParseConcat(a: seq<string>, b: seq<string>, st: State)
    ensures var r := ParseLines(a, st); ParseLines(a + b, st) == if r.Ok? then ParseLines(b, r.state) else r
    decreases |a|
  {
    hide ProcessLine;
    if a == [] {
      assert a + b == b;
    } else {
      assert (a + b)[0] == a[0] && (a + b)[1..] == a[1..] + b;
      var r := ProcessLine(st, a[0]);
      if r.Ok? {
        ParseConcat(a[1..], b, r.state);
      }
    }
  }

  lemma {:induction false} SectionLineParsed(n: string, st: State)
    requires Clean(n)
    ensures ProcessLine(st, SectionLine(n)) == Ok(State(st.sections[n := map[]], Some(n)))
  {
    var l := SectionLine(n);
    CutNothing(l);
    assert l[|l| - 1] == ']';
    assert TrimEnd(l) == l;
    assert l[1..|l| - 1] == n;
  }

  lemma {:induction false} UnindentShaped(k: string)
    requires ShapedKey(k)
    ensures Unindent(k) == k
  {
    var n := LeadingSpaces(k);
    assert n == if AllSpace(k) then |k| else 0;
    assert k[|k|..] + k[0..] == k == k[0..] + k[|k|..];
  }

  /** A line of a shaped pair: skipped if it reads as a section or comment, otherwise the pair is stored. */
  lemma {:induction false} PairLineParsed(p: Pair, st: State)
    requires ShapedKey(p.key) && ShapedValue(p.value) && PlainKey(p.key)
    ensures ProcessLine(st, PairLine(p)) == Assign(st, p.key, p.value)
  {
    var l := PairLine(p);
    CutNothing(l);
    assert l[0] == p.key[0];
    assert IsComment(l) == IsComment(p.key) by {
      assert l[1] == if |p.key| > 1 then p.key[1] else '=';
    }
    hide UpTo;
    assert l == p.key + (['='] + p.value);
    UpToIn(p.key, '=', p.value);
    UnindentShaped(p.key);
    assert l[|p.key| + 1..] == p.value;
  }

  /** The pair of an indented key comes back under another key: the white space is gone from its front and as many
      characters of its end are doubled. */
  lemma {:induction false} IndentedKey(spaces: string, k: string, value: string, st: State)
    requires spaces != "" && AllSpace(spaces) && k != "" && !IsSpace(k[0])
    requires '=' !in k && '\0' !in k && '\0' !in value && value != ""
    ensures var key := k + (spaces + k)[|k|..];
            ProcessLine(st, PairLine(Pair(spaces + k, value))) == Assign(st, key, value) && key != spaces + k
  {
    var key := spaces + k;
    var l := PairLine(Pair(key, value));
    CutNothing(l);
    assert l[0] == spaces[0];
    UnindentIndented(spaces, k);
    hide UpTo, Unindent;
    assert l == key + (['='] + value);
    UpToIn(key, '=', value);
    assert l[|key| + 1..] == value;
    assert (k + key[|k|..])[0] == k[0] && key[0] == spaces[0];
  }

  lemma {:induction false} UnindentIndented(spaces: string, k: string)
    requires AllSpace(spaces) && k != "" && !IsSpace(k[0])
    ensures Unindent(spaces + k) == k + (spaces + k)[|k|..]
  {
    var key := spaces + k;
    assert forall i :: 0 <= i < |spaces| ==> key[i] == spaces[i];
    assert key[|spaces|] == k[0] && LeadingSpaces(key) == |spaces|;
    assert key[|spaces|..] == k;
  }

  function Extend(m: Keys, ps: seq<Pair>): (r: Keys)
    decreases |ps|
  {
    if ps == [] then m else Extend(m[ps[0].key := ps[0].value], ps[1..])
  }

  function Restored(order: seq<Section>, m: Sections): (r: Sections)
    decreases |order|
  {
    if order == [] then m
    else Restored(order[1..], if order[0].pairs == [] then m else m[order[0].name := Extend(map[], order[0].pairs)])
  }

  lemma {:induction false} PairsParsed(ps: seq<Pair>, st: State)
    requires forall i :: 0 <= i < |ps| ==> GoodPair(ps[i])
    requires st.current.Some? && st.current.value in st.sections
    ensures var n := st.current.value;
            ParseLines(PairLines(ps), st) == Ok(st.(sections := st.sections[n := Extend(st.sections[n], ps)]))
    decreases |ps|
  {
    hide ProcessLine;
    var n := st.current.value;
    if ps == [] {
      assert st.sections[n := st.sections[n]] == st.sections;
    } else {
      assert GoodPair(ps[0]);
      PairLineParsed(ps[0], st);
      var st' := st.(sections := st.sections[n := st.sections[n][ps[0].key := ps[0].value]]);
      PairsParsed(ps[1..], st');
      assert PairLines(ps)[0] == PairLine(ps[0]) && PairLines(ps)[1..] == PairLines(ps[1..]);
      assert st'.sections[n := Extend(st'.sections[n], ps[1..])] == st.sections[n := Extend(st.sections[n], ps)];
    }
  }

  predicate GoodSection(s: Section) {
    s.pairs != [] ==> GoodName(s.name) && forall i :: 0 <= i < |s.pairs| ==> GoodPair(s.pairs[i])
  }

  predicate GoodOrder(order: seq<Section>) {
    forall i :: 0 <= i < |order| ==> GoodSection(order[i])
  }

  lemma {:induction false} SectionParsed(s: Section, st: State)
    requires GoodSection(s)
    ensures var r := ParseLines(SectionLines(s), st);
            && r.Ok?
            && r.state.sections == if s.pairs == [] then st.sections
                                   else st.sections[s.name := Extend(map[], s.pairs)]
  {
    if s.pairs != [] {
      SectionLineParsed(s.name, st);
      hide ProcessLine;
      var st' := State(st.sections[s.name := map[]], Some(s.name));
      PairsParsed(s.pairs, st');
      hide PairLines, Extend;
      var all := SectionLines(s);
      assert all[0] == SectionLine(s.name) && all[1..] == PairLines(s.pairs);
      assert st'.sections[s.name := Extend(map[], s.pairs)] == st.sections[s.name := Extend(map[], s.pairs)];
    }
  }

  lemma {:induction false} OrderParsed(order: seq<Section>, st: State)
    requires GoodOrder(order)
    ensures var r := ParseLines(OrderLines(order), st); r.Ok? && r.state.sections == Restored(order, st.sections)
    decreases |order|
  {
    hide SectionLines;
    if order != [] {
      SectionParsed(order[0], st);
      ParseConcat(SectionLines(order[0]), OrderLines(order[1..]), st);
      OrderParsed(order[1..], ParseLines(SectionLines(order[0]), st).state);
    }
  }

  /** Well-formed contents are restored, whatever the order they were written in. */
  lemma {:induction false} GoodRestored(order: seq<Section>)
    requires GoodOrder(order)
    ensures var r := Parse(SavedText(order)); r.Ok? && r.state.sections == Restored(order, map[])
  {
    GoodIsClean(order);
    SavedLines(order);
    OrderParsed(order, EMPTY);
    LastLineEmpty(OrderLines(order), EMPTY);
  }

  lemma {:induction false} GoodIsClean(order: seq<Section>)
    requires GoodOrder(order)
    ensures CleanOrder(order)
  {
  }

  /** Parsing the saved text of clean contents is parsing its lines. */
  lemma {:induction false} SavedLines(order: seq<Section>)
    requires CleanOrder(order)
    ensures Parse(SavedText(order)) == ParseLines(OrderLines(order) + [""], EMPTY)
  {
    TextIsJoin(order);
    JoinThenSplit(OrderLines(order), "");
    assert Join(OrderLines(order)) + "" == Join(OrderLines(order));
  }

  lemma {:induction false} LastLineEmpty(lines: seq<string>, st: State)
    ensures ParseLines(lines + [""], st) == ParseLines(lines, st)
  {
    ParseConcat(lines, [""], st);
    var r := ParseLines(lines, st);
    if r.Ok? {
      assert ProcessLine(r.state, "") == Ok(r.state);
      assert [""][1..] == [];
    }
  }

  // ----- whatever is parsed has a certain shape

  ghost predicate ShapedKeys(m: Keys) {
    forall k :: k in m ==> ShapedKey(k) && ShapedValue(m[k])
  }

  ghost predicate Shaped(st: State) {
    forall n :: n in st.sections ==> Clean(n) && ShapedKeys(st.sections[n])
  }

  lemma {:induction false} CutIsClean(l: string)
    requires '\n' !in l
    ensures Clean(CutNul(l))
  {
  }

  lemma {:induction false} UnindentShape(k: string)
    requires k != "" && Clean(k) && '=' !in k
    ensures ShapedKey(Unindent(k))
  {
  }

  lemma {:induction false} AssignShaped(st: State, k: string, v: string)
    requires Shaped(st) && ShapedKey(k) && ShapedValue(v) && Assign(st, k, v).Ok?
    ensures Shaped(Assign(st, k, v).state)
  {
  }

  lemma {:induction false} SubClean(s: string, t: string)
    requires Clean(s) && forall c :: c in t ==> c in s
    ensures Clean(t)
  {
  }

  lemma {:induction false} ProcessShaped(st: State, line: string)
    requires Shaped(st) && '\n' !in line && ProcessLine(st, line).Ok?
    ensures Shaped(ProcessLine(st, line).state)
  {
    CutIsClean(line);
    hide CutNul, Unindent, Assign, ShapedKey;
    var l := CutNul(line);
    if l == "" || IsComment(l) {
    } else if l[0] == '[' {
      var t := TrimEnd(l);
      assert forall c :: c in t[1..|t| - 1] ==> c in l;
      SubClean(l, t[1..|t| - 1]);
    } else {
      var s := SkipEquals(l);
      var key := UpTo(s, '=');
      if |s| > |key| + 1 {
        var v := s[|key| + 1..];
        SubClean(l, key);
        SubClean(l, v);
        assert key != "";
        UnindentShape(key);
        AssignShaped(st, Unindent(key), v);
      }
    }
  }

  lemma {:induction false} ParseShaped(lines: seq<string>, st: State)
    requires Shaped(st) && NewlineFree(lines) && ParseLines(lines, st).Ok?
    ensures Shaped(ParseLines(lines, st).state)
    decreases |lines|
  {
    hide ProcessLine, Shaped;
    if lines != [] {
      ProcessShaped(st, lines[0]);
      ParseShaped(lines[1..], ProcessLine(st, lines[0]).state);
    }
  }

  lemma {:induction false} ParsedIsShaped(text: string)
    requires Parse(text).Ok?
    ensures Shaped(Parse(text).state)
  {
    hide ParseLines;
    ParseShaped(Lines(text) + [Rest(text)], EMPTY);
  }

  // ----- lines of shaped pairs that do not read as pairs are lost

  ghost predicate PlainKeys(st: State) {
    forall n :: n in st.sections ==> forall k :: k in st.sections[n] ==> PlainKey(k)
  }

  /** The line of a section, or of a pair of the shape a parser could have produced. */
  ghost predicate SavedLine(l: string) {
    (l != "" && l[0] == '[') || l == "" || exists p :: l == PairLine(p) && ShapedKey(p.key) && ShapedValue(p.value)
  }

  lemma {:induction false} ProcessPlain(st: State, l: string)
    requires PlainKeys(st) && SavedLine(l) && '\0' !in l && ProcessLine(st, l).Ok?
    ensures PlainKeys(ProcessLine(st, l).state)
  {
    CutNothing(l);
    if l == "" || l[0] == '[' {
    } else {
      var p :| l == PairLine(p) && ShapedKey(p.key) && ShapedValue(p.value);
      assert l[0] == p.key[0];
      assert IsComment(l) == IsComment(p.key) by {
        assert l[1] == if |p.key| > 1 then p.key[1] else '=';
      }
      if PlainKey(p.key) {
        PairLineParsed(p, st);
      }
    }
  }

  lemma {:induction false} ParsePlain(lines: seq<string>, st: State)
    requires PlainKeys(st) && ParseLines(lines, st).Ok?
    requires forall i :: 0 <= i < |lines| ==> SavedLine(lines[i]) && '\0' !in lines[i]
    ensures PlainKeys(ParseLines(lines, st).state)
    ensures forall i :: 0 <= i < |lines| ==> |lines[i]| < 256
    decreases |lines|
  {
    hide ProcessLine, SavedLine, PlainKeys;
    if lines != [] {
      ProcessPlain(st, lines[0]);
      ParsePlain(lines[1..], ProcessLine(st, lines[0]).state);
      assert forall i :: 1 <= i < |lines| ==> lines[i] == lines[1..][i - 1];
    }
  }

  // ----- the order as an enumeration of the object

  ghost predicate EnumeratesKeys(ps: seq<Pair>, m: Keys) {
    && (forall i, j :: 0 <= i < j < |ps| ==> ps[i].key != ps[j].key)
    && (forall i :: 0 <= i < |ps| ==> ps[i].key in m && m[ps[i].key] == ps[i].value)
    && (forall k :: k in m ==> Pair(k, m[k]) in ps)
  }

  /** `order` lists every section and every key of the object once, in some order. */
  ghost predicate Enumerates(order: seq<Section>, ini: Sections) {
    && (forall i, j :: 0 <= i < j < |order| ==> order[i].name != order[j].name)
    && (forall i :: 0 <= i < |order| ==> order[i].name in ini && EnumeratesKeys(order[i].pairs, ini[order[i].name]))
    && (forall n :: n in ini ==> exists i :: 0 <= i < |order| && order[i].name == n)
  }

  /** The object without its empty sections. */
  function NonEmpty(ini: Sections): (r: Sections) {
    map n | n in ini && ini[n] != map[] :: ini[n]
  }

  lemma {:induction false} ExtendAll(base: Keys, ps: seq<Pair>)
    requires forall i, j :: 0 <= i < j < |ps| ==> ps[i].key != ps[j].key
    ensures forall i :: 0 <= i < |ps| ==> ps[i].key in Extend(base, ps) && Extend(base, ps)[ps[i].key] == ps[i].value
    ensures forall k :: k in Extend(base, ps) ==>
                          Pair(k, Extend(base, ps)[k]) in ps || (k in base && Extend(base, ps)[k] == base[k])
    ensures forall k :: k in base && (forall i :: 0 <= i < |ps| ==> ps[i].key != k) ==>
                          k in Extend(base, ps) && Extend(base, ps)[k] == base[k]
    decreases |ps|
  {
    if ps != [] {
      var b := base[ps[0].key := ps[0].value];
      var rest := ps[1..];
      ExtendAll(b, rest);
      assert forall i :: 0 <= i < |rest| ==> rest[i] == ps[i + 1];
    }
  }

  lemma {:induction false} ExtendEnumerates(ps: seq<Pair>, m: Keys)
    requires EnumeratesKeys(ps, m)
    ensures Extend(map[], ps) == m && (ps == [] <==> m == map[])
  {
    ExtendAll(map[], ps);
    var e := Extend(map[], ps);
    forall k | k in m ensures k in e && e[k] == m[k] {
      var i :| 0 <= i < |ps| && ps[i] == Pair(k, m[k]);
      assert ps[i].key in e;
    }
    forall k | k in e ensures k in m {
      var i :| 0 <= i < |ps| && ps[i] == Pair(k, e[k]);
      assert ps[i].key in m;
    }
    if ps != [] {
      assert ps[0].key in m;
    }
  }

  /** A section that no listed section with keys is named after stays as it was. */
  lemma {:induction false} RestoredOther(order: seq<Section>, m: Sections, n: string)
    requires forall i :: 0 <= i < |order| && order[i].name == n ==> order[i].pairs == []
    ensures var r := Restored(order, m); (n in r <==> n in m) && (n in m ==> r[n] == m[n])
    decreases |order|
  {
    hide Extend;
    if order != [] {
      assert order[0].name == n ==> order[0].pairs == [];
      var head := order[0];
      RestoredOther(order[1..], if head.pairs == [] then m else m[head.name := Extend(map[], head.pairs)], n);
    }
  }

  /** A listed section with keys is there, with those keys. */
  lemma {:induction false} RestoredListed(order: seq<Section>, m: Sections, i: nat)
    requires forall i, j :: 0 <= i < j < |order| ==> order[i].name != order[j].name
    requires i < |order| && order[i].pairs != []
    ensures var r, n := Restored(order, m), order[i].name; n in r && r[n] == Extend(map[], order[i].pairs)
    decreases |order|
  {
    hide Extend;
    var m' := if order[0].pairs == [] then m else m[order[0].name := Extend(map[], order[0].pairs)];
    if i == 0 {
      RestoredOther(order[1..], m', order[0].name);
    } else {
      RestoredListed(order[1..], m', i - 1);
    }
  }

  /** Sequential insertion of an enumeration rebuilds the object without its empty sections. */
  lemma {:induction false} RestoredEnumerates(order: seq<Section>, ini: Sections)
    requires Enumerates(order, ini)
    ensures Restored(order, map[]) == NonEmpty(ini)
  {
    hide *;
    var r, e := Restored(order, map[]), NonEmpty(ini);
    forall n ensures n in r <==> n in e {
      RestoredKey(order, ini, n);
    }
    forall n | n in e ensures r[n] == e[n] {
      RestoredKey(order, ini, n);
    }
  }

  lemma {:induction false} RestoredKey(order: seq<Section>, ini: Sections, n: string)
    requires Enumerates(order, ini)
    ensures var r, e := Restored(order, map[]), NonEmpty(ini); (n in r <==> n in e) && (n in e ==> r[n] == e[n])
  {
    hide Extend, Restored, EnumeratesKeys;
    if n in ini {
      var i :| 0 <= i < |order| && order[i].name == n;
      ExtendEnumerates(order[i].pairs, ini[n]);
      if order[i].pairs != [] {
        RestoredListed(order, map[], i);
      } else {
        RestoredOther(order, map[], n);
      }
    } else {
      RestoredOther(order, map[], n);
    }
  }

  /** Everything that is written can be read back. */
  ghost predicate WellFormed(ini: Sections) {
    forall n :: n in ini && ini[n] != map[] ==> GoodName(n) && forall k :: k in ini[n] ==> GoodPair(Pair(k, ini[n][k]))
  }

  lemma {:induction false} WellFormedOrder(order: seq<Section>, ini: Sections)
    requires Enumerates(order, ini)
    ensures WellFormed(ini) <==> GoodOrder(order)
  {
    hide GoodName, GoodPair;
    forall i | 0 <= i < |order| ensures order[i].pairs == [] <==> ini[order[i].name] == map[] {
      ExtendEnumerates(order[i].pairs, ini[order[i].name]);
    }
    if WellFormed(ini) {
      forall i | 0 <= i < |order| ensures GoodSection(order[i]) {
        forall j | 0 <= j < |order[i].pairs| ensures GoodPair(order[i].pairs[j]) {
          var p := order[i].pairs[j];
          assert p == Pair(p.key, ini[order[i].name][p.key]);
        }
      }
    }
    if GoodOrder(order) {
      forall n | n in ini && ini[n] != map[]
        ensures GoodName(n) && forall k :: k in ini[n] ==> GoodPair(Pair(k, ini[n][k]))
      {
        var i :| 0 <= i < |order| && order[i].name == n;
        assert GoodSection(order[i]);
        forall k | k in ini[n] ensures GoodPair(Pair(k, ini[n][k])) {
          var j :| 0 <= j < |order[i].pairs| && order[i].pairs[j] == Pair(k, ini[n][k]);
        }
      }
    }
  }

  // ----- only well-formed contents survive

  lemma {:induction false} OrderLinesAre(order: seq<Section>, i: nat)
    requires i < |order| && order[i].pairs != []
    ensures SectionLine(order[i].name) in OrderLines(order)
    ensures forall j :: 0 <= j < |order[i].pairs| ==> PairLine(order[i].pairs[j]) in OrderLines(order)
    decreases |order|
  {
    if i == 0 {
      var s, ls := order[0], SectionLines(order[0]);
      assert ls[0] == SectionLine(s.name);
      forall j | 0 <= j < |s.pairs| ensures PairLine(s.pairs[j]) in ls {
        assert ls[j + 1] == PairLine(s.pairs[j]);
      }
    } else {
      OrderLinesAre(order[1..], i - 1);
    }
  }

  predicate ShapedPair(p: Pair) {
    ShapedKey(p.key) && ShapedValue(p.value)
  }

  predicate ShapedOrder(order: seq<Section>) {
    forall i :: 0 <= i < |order| && order[i].pairs != [] ==>
                  Clean(order[i].name) && forall j :: 0 <= j < |order[i].pairs| ==> ShapedPair(order[i].pairs[j])
  }

  lemma {:induction false} SectionLinesSaved(s: Section)
    requires s.pairs != [] ==> Clean(s.name) && forall j :: 0 <= j < |s.pairs| ==> ShapedPair(s.pairs[j])
    ensures forall i :: 0 <= i < |SectionLines(s)| ==> SavedLine(SectionLines(s)[i]) && '\0' !in SectionLines(s)[i]
  {
  }

  lemma {:induction false} OrderLinesSaved(order: seq<Section>)
    requires ShapedOrder(order)
    ensures forall i :: 0 <= i < |OrderLines(order)| ==>
                          SavedLine(OrderLines(order)[i]) && '\0' !in OrderLines(order)[i]
    decreases |order|
  {
    hide SavedLine, SectionLines, ShapedPair;
    if order != [] {
      SectionLinesSaved(order[0]);
      OrderLinesSaved(order[1..]);
    }
  }

  /** If the saved text parses to the object, the order has the shape of parsed contents. */
  lemma {:induction false} RestoredIsShaped(order: seq<Section>, ini: Sections)
    requires Enumerates(order, ini) && Parse(SavedText(order)).Ok?
    requires Parse(SavedText(order)).state.sections == NonEmpty(ini)
    ensures ShapedOrder(order) && CleanOrder(order)
  {
    hide Parse, ShapedKey, ShapedValue;
    ParsedIsShaped(SavedText(order));
    forall i | 0 <= i < |order| && order[i].pairs != []
      ensures Clean(order[i].name) && CleanPairs(order[i].pairs)
      ensures forall j :: 0 <= j < |order[i].pairs| ==> ShapedPair(order[i].pairs[j])
    {
      var n := order[i].name;
      ExtendEnumerates(order[i].pairs, ini[n]);
      assert n in NonEmpty(ini) && ShapedKeys(ini[n]);
      forall j | 0 <= j < |order[i].pairs| ensures ShapedPair(order[i].pairs[j]) && CleanPair(order[i].pairs[j]) {
        var p := order[i].pairs[j];
        assert p.key in ini[n] && ini[n][p.key] == p.value;
        ShapedIsClean(p);
      }
    }
  }

  lemma {:induction false} ShapedIsClean(p: Pair)
    requires ShapedKey(p.key) && ShapedValue(p.value)
    ensures CleanPair(p)
  {
  }

  lemma {:induction false} RestoredIsGood(order: seq<Section>, ini: Sections)
    requires Enumerates(order, ini) && Parse(SavedText(order)).Ok?
    requires Parse(SavedText(order)).state.sections == NonEmpty(ini)
    ensures GoodOrder(order)
  {
    RestoredIsShaped(order, ini);
    SavedLines(order);
    hide Parse, ShapedKey, ShapedValue, PlainKey;
    OrderLinesSaved(order);
    LastLineEmpty(OrderLines(order), EMPTY);
    ParsePlain(OrderLines(order), EMPTY);
    var st := Parse(SavedText(order)).state;
    hide *;
    forall i | 0 <= i < |order| ensures GoodSection(order[i]) {
      GoodFromParsed(order, ini, st, i);
    }
    AllGood(order);
  }

  lemma {:induction false} AllGood(order: seq<Section>)
    requires forall i :: 0 <= i < |order| ==> GoodSection(order[i])
    ensures GoodOrder(order)
  {
  }

  lemma {:induction false} GoodFromParsed(order: seq<Section>, ini: Sections, st: State, i: nat)
    requires Enumerates(order, ini) && ShapedOrder(order) && st.sections == NonEmpty(ini) && PlainKeys(st)
    requires i < |order| && forall k :: 0 <= k < |OrderLines(order)| ==> |OrderLines(order)[k]| < 256
    ensures GoodSection(order[i])
  {
    hide OrderLines, EnumeratesKeys, ShapedKey, ShapedValue, PlainKey;
    if order[i].pairs != [] {
      var n := order[i].name;
      ExtendEnumerates(order[i].pairs, ini[n]);
      OrderLinesAre(order, i);
      assert n in st.sections && st.sections[n] == ini[n];
      forall j | 0 <= j < |order[i].pairs| ensures GoodPair(order[i].pairs[j]) {
        var p := order[i].pairs[j];
        assert ShapedPair(p);
        KeyListed(order[i].pairs, ini[n], j);
        assert PlainKey(p.key);
        assert PairLine(p) in OrderLines(order);
      }
    }
  }

  lemma {:induction false} KeyListed(ps: seq<Pair>, m: Keys, j: nat)
    requires EnumeratesKeys(ps, m) && j < |ps|
    ensures ps[j].key in m && m[ps[j].key] == ps[j].value
  {
  }

  /** The round trip, for every object and every iteration order: parsing what save wrote rebuilds the object
      without its empty sections if and only if the contents are well formed. */
  lemma {:induction false} RoundTrip(order: seq<Section>, ini: Sections)
    requires Enumerates(order, ini)
    ensures var r := Parse(SavedText(order));
            (r.Ok? && r.state.sections == NonEmpty(ini)) <==> WellFormed(ini)
  {
    hide Parse, WellFormed, GoodOrder;
    WellFormedOrder(order, ini);
    var r := Parse(SavedText(order));
    if GoodOrder(order) {
      GoodRestored(order);
      RestoredEnumerates(order, ini);
    }
    if r.Ok? && r.state.sections == NonEmpty(ini) {
      RestoredIsGood(order, ini);
    }
  }
}
