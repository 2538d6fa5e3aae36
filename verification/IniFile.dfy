/**
  The INI parser and printer of libControlCAN/inc/ini.h: getline into a 256-byte buffer, C string
  functions on each line, and save, which writes the sections in whatever order its hash map yields.
  */
module IniFile {
  import opened Basics
  import opened TextLines

  type Keys = map<string, string>
  type Sections = map<string, Keys>

  /** The parser's state: the sections, and the one selected last. `current` starts out uninitialised. */
  datatype State = State(sections: Sections, current: Option<string>)

  /** `Fault` is undefined behaviour in C++; `Hang` is the endless loop after a line that does not fit. */
  datatype Outcome = Ok(state: State) | Fault | Hang

  const EMPTY: State := State(map[], None)
  const BUFFER: nat := 256

  // ----- C string helpers

  /** What a C string function sees of a buffer. */
  function CutNul(s: string): (r: string) {
    UpTo(s, '\0')
  }

  function TrimEnd(s: string): (r: string)
    ensures r <= s && (r != "" ==> !IsSpace(r[|r| - 1]))
  {
    if s == "" || !IsSpace(s[|s| - 1]) then s else TrimEnd(s[..|s| - 1])
  }

  function LeadingSpaces(s: string): (n: nat)
    ensures n <= |s| && (n < |s| ==> !IsSpace(s[n])) && forall i :: 0 <= i < n ==> IsSpace(s[i])
  {
    if s == "" || !IsSpace(s[0]) then 0 else 1 + LeadingSpaces(s[1..])
  }

  /** strtok skips delimiters before the token. */
  function SkipEquals(s: string): (r: string)
    ensures r != "" ==> r[0] != '='
    ensures forall c :: c in r ==> c in s
    ensures s != "" && s[0] != '=' ==> r == s
  {
    if s != "" && s[0] == '=' then SkipEquals(s[1..]) else s
  }

  /** Removing leading white space with strncpy and no terminator: the tail of the key stays behind. */
  function Unindent(key: string): (r: string) {
    var i := LeadingSpaces(key);
    key[i..] + key[|key| - i..]
  }

  // ----- the parser

  predicate IsComment(l: string) {
    (l != "" && l[0] == '#') || (|l| >= 2 && l[0] == '/' && l[1] == '/')
  }

  function Assign(st: State, key: string, value: string): (r: Outcome) {
    if st.current.None? || st.current.value !in st.sections then Fault
    else
      var s := st.current.value;
      Ok(st.(sections := st.sections[s := st.sections[s][key := value]]))
  }

  /** One turn of the loop, for a line that fit the buffer. */
  function ProcessLine(st: State, raw: string): (r: Outcome) {
    var l := CutNul(raw);
    if l == "" || IsComment(l) then Ok(st)
    else if l[0] == '[' then
      var t := TrimEnd(l);
      if |t| < 2 then Fault
      else
        var section := t[1..|t| - 1];
        Ok(State(st.sections[section := map[]], Some(section)))
    else
      var s := SkipEquals(l);
      if s == "" then Fault
      else
        var key := UpTo(s, '=');
        if |s| <= |key| + 1 then Ok(st)
        else Assign(st, Unindent(key), s[|key| + 1..])
  }

  function ParseLines(lines: seq<string>, st: State): (r: Outcome) {
    if lines == [] then Ok(st)
    else if |lines[0]| >= BUFFER then Hang
    else
      var r := ProcessLine(st, lines[0]);
      if r.Ok? then ParseLines(lines[1..], r.state) else r
  }

  /** The complete lines and then what follows the last newline. */
  function Parse(text: string): (r: Outcome) {
    ParseLines(Lines(text) + [Rest(text)], EMPTY)
  }

  // ----- the printer

  datatype Pair = Pair(key: string, value: string)
  datatype Section = Section(name: string, pairs: seq<Pair>)

  function SectionLine(name: string): (r: string) {
    "[" + name + "]"
  }

  function PairLine(p: Pair): (r: string) {
    p.key + "=" + p.value
  }

  function PairsText(ps: seq<Pair>): (r: string) {
    if ps == [] then "" else CutNul(PairLine(ps[0]) + "\n") + PairsText(ps[1..])
  }

  function SectionText(s: Section): (r: string) {
    if s.pairs == [] then "" else CutNul(SectionLine(s.name) + "\n") + PairsText(s.pairs)
  }

  /** What save writes when the hash maps yield their entries in this order. */
  function SavedText(order: seq<Section>): (r: string) {
    if order == [] then "" else SectionText(order[0]) + SavedText(order[1..])
  }

  class Ini {
    var sections: Sections
    var current: Option<string>

    constructor ()
      ensures sections == map[] && current == None
    {
      sections, current := map[], None;
    }

    ghost function View(): (st: State)
      reads this
    {
      State(sections, current)
    }

    /** parse: the outcome, and on success the new state, are those of Parse. */
    method ParseText(text: string) returns (hang: bool, fault: bool)
      modifies this
      ensures var r := ParseLines(Lines(text) + [Rest(text)], old(View()));
              && hang == r.Hang? && fault == r.Fault? && (r.Ok? ==> View() == r.state)
    {
      hide *;
      hang, fault := false, false;
      var rest, eof := text, false;
      ghost var goal := ParseLines(Lines(text) + [Rest(text)], View());
      while !eof
        invariant eof ==> goal == Ok(View())
        invariant !eof ==> goal == ParseLines(Lines(rest) + [Rest(rest)], View())
        decreases if eof then 0 else 1 + |rest|
      {
        var i := FindNewline(rest);
        var line := rest[..i];
        ParseTurn(rest, View());
        if |line| >= BUFFER {
          return true, false;
        }
        var ok := HandleLine(line);
        if !ok {
          return false, true;
        }
        if i == |rest| {
          eof := true;
        } else {
          rest := rest[i + 1..];
        }
      }
    }

    method HandleLine(raw: string) returns (ok: bool)
      modifies this
      ensures var r := ProcessLine(old(View()), raw); ok == r.Ok? && !r.Hang? && (ok ==> View() == r.state)
    {
      var l := CutNul(raw);
      if l == "" || IsComment(l) {
        return true;
      }
      if l[0] == '[' {
        var t := TrimEnd(l);
        if |t| < 2 {
          return false;
        }
        var section := t[1..|t| - 1];
        sections := sections[section := map[]];
        current := Some(section);
        return true;
      }
      var s := SkipEquals(l);
      if s == "" {
        return false;
      }
      var key := UpTo(s, '=');
      if |s| <= |key| + 1 {
        return true;
      }
      if current.None? || current.value !in sections {
        return false;
      }
      sections := sections[current.value := sections[current.value][Unindent(key) := s[|key| + 1..]]];
      return true;
    }
  }

  /** What getline and one turn of the loop do to the text still to be read. */
  lemma {:induction false} ParseTurn(rest: string, st: State)
    ensures var i := FindNewline(rest); var line, r := rest[..i], ProcessLine(st, rest[..i]);
            ParseLines(Lines(rest) + [Rest(rest)], st)
            == if |line| >= BUFFER then Hang else if !r.Ok? then r else if i == |rest| then r
               else ParseLines(Lines(rest[i + 1..]) + [Rest(rest[i + 1..])], r.state)
    ensures !ProcessLine(st, rest[..FindNewline(rest)]).Hang?
  {
    hide ProcessLine;
    NotHang(st, rest[..FindNewline(rest)]);
    var i, all := FindNewline(rest), Lines(rest) + [Rest(rest)];
    if i == |rest| {
      assert rest[..i] == rest;
      assert all == [rest] && all[1..] == [];
    } else {
      assert all[0] == rest[..i] && all[1..] == Lines(rest[i + 1..]) + [Rest(rest[i + 1..])];
    }
  }

  lemma {:induction false} NotHang(st: State, line: string)
    ensures !ProcessLine(st, line).Hang?
  {
  }

  lemma {:induction false} SavedFrom(order: seq<Section>, i: nat)
    requires i < |order|
    ensures SavedText(order[i..]) == SectionText(order[i]) + SavedText(order[i + 1..])
  {
    assert order[i..][0] == order[i] && order[i..][1..] == order[i + 1..];
  }

  lemma {:induction false} PairsFrom(ps: seq<Pair>, j: nat)
    requires j < |ps|
    ensures PairsText(ps[j..]) == CutNul(PairLine(ps[j]) + "\n") + PairsText(ps[j + 1..])
  {
    assert ps[j..][0] == ps[j] && ps[j..][1..] == ps[j + 1..];
  }

  lemma {:induction false} NothingLeft(order: seq<Section>, ps: seq<Pair>)
    ensures SavedText(order[|order|..]) == "" && PairsText(ps[|ps|..]) == ""
  {
  }

  lemma {:induction false} SectionTextIs(s: Section)
    ensures SectionText(s) == if s.pairs == [] then "" else CutNul(SectionLine(s.name) + "\n") + PairsText(s.pairs)
  {
  }

  /** save, for a given iteration order of the hash maps: an object that came from memory needs a file name, and the
      file must open, which truncates it; otherwise the file keeps its content. */
  method Save(order: seq<Section>, filename: string, fromMemory: bool, openable: bool, before: string)
    returns (ok: bool, file: string)
    ensures ok == (!(fromMemory && filename == "") && openable)
    ensures file == if ok then SavedText(order) else before
  {
    if fromMemory && filename == "" {
      return false, before;
    }
    if !openable {
      return false, before;
    }
    ok := true;
    file := WriteSections(order);
  }

  /** The loop of save over the sections. */
  method WriteSections(order: seq<Section>) returns (file: string)
    ensures file == SavedText(order)
  {
    hide *;
    file := "";
    assert order[0..] == order;
    for i := 0 to |order|
      invariant SavedText(order) == file + SavedText(order[i..])
    {
      var s := order[i];
      SavedFrom(order, i);
      Associative(file, SectionText(s), SavedText(order[i + 1..]));
      if |s.pairs| == 0 {
        SectionTextIs(s);
        continue;
      }
      var text := SaveSection(s);
      file := file + text;
    }
    NothingLeft(order, []);
  }

  method SaveSection(s: Section) returns (text: string)
    requires s.pairs != []
    ensures text == SectionText(s)
  {
    hide *;
    SectionTextIs(s);
    text := CutNul(SectionLine(s.name) + "\n");
    assert s.pairs[0..] == s.pairs;
    for j := 0 to |s.pairs|
      invariant SectionText(s) == text + PairsText(s.pairs[j..])
    {
      var line := CutNul(PairLine(s.pairs[j]) + "\n");
      PairsFrom(s.pairs, j);
      Associative(text, line, PairsText(s.pairs[j + 1..]));
      text := text + line;
    }
    NothingLeft([], s.pairs);
  }
}
