/** The text of glog's --vmodule flag, `pattern=level,pattern=level`, and how VLOG2Initializer scans it. */
module VmoduleFlag {
  import opened Basics
  import opened Numerals

  // ----- sscanf

  function SkipSpaces(s: string): (r: string) {
    if s != "" && IsSpace(s[0]) then SkipSpaces(s[1..]) else s
  }

  /** The number of decimal digits at the front. */
  function DigitRun(s: string): (n: nat)
    ensures n <= |s| && IsDigits(s[..n]) && (n < |s| ==> !('0' <= s[n] <= '9'))
  {
    if s == "" || !('0' <= s[0] <= '9') then 0
    else
      var n := DigitRun(s[1..]);
      assert s[..n + 1] == [s[0]] + s[1..][..n];
      n + 1
  }

  /** sscanf with %d: white space, a sign, and at least one digit. */
  function ScanInt(s: string): (r: Option<int>) {
    ScanSigned(SkipSpaces(s))
  }

  function ScanSigned(t: string): (r: Option<int>) {
    if t == "" || (t[0] != '-' && t[0] != '+') then ScanDigits(t)
    else
      match ScanDigits(t[1..])
      case None => None
      case Some(n) => Some(if t[0] == '-' then 0 - n else n)
  }

  function ScanDigits(u: string): (r: Option<int>) {
    var n := DigitRun(u);
    if n == 0 then None else Some(Value(u[..n], 10))
  }

  // ----- the scan

  /** What the scan makes of a text: the pattern before each `=`, with the level behind it if that is a number;
      then on behind the next comma. */
  function Entries(text: string): (r: seq<(string, int)>)
    decreases |text|
  {
    var pattern := UpTo(text, '=');
    if |pattern| == |text| then []
    else
      var rest := text[|pattern| + 1..];
      var level := ScanInt(rest);
      (if level.Some? then [(pattern, level.value)] else []) + Entries(NextEntry(rest))
  }

  /** The text behind the first comma, or nothing. */
  function NextEntry(s: string): (r: string)
    ensures |r| <= |s|
  {
    var entry := UpTo(s, ',');
    if |entry| == |s| then "" else s[|entry| + 1..]
  }

  /** The flag is scanned as a C string: up to a NUL. */
  function FlagEntries(flag: string): (r: seq<(string, int)>) {
    Entries(UpTo(flag, '\0'))
  }

  /** What follows a NUL in the flag is not seen. */
  lemma {:induction false} FlagCut(text: string, rest: string)
    requires '\0' !in text
    ensures FlagEntries(text + (['\0'] + rest)) == FlagEntries(text) == Entries(text)
  {
    UpToIn(text, '\0', rest);
    UpToNone(text, '\0');
  }

  predicate IsInt(n: int) {
    -0x8000_0000 <= n < 0x8000_0000
  }

  /** Every number scanned fits an int; for any other sscanf is undefined. */
  ghost predicate NumbersFit(flag: string) {
    forall i :: 0 <= i < |FlagEntries(flag)| ==> IsInt(FlagEntries(flag)[i].1)
  }

  lemma {:induction false} EntriesPlain(text: string)
    ensures forall i :: 0 <= i < |Entries(text)| ==> '=' !in Entries(text)[i].0
    decreases |text|
  {
    var n := |UpTo(text, '=')|;
    if n < |text| {
      EntriesPlain(NextEntry(text[n + 1..]));
    }
  }

  // ----- settings

  /** A setting as a user may write it: the pattern, and behind the `=` white space, a sign, digits and anything that
      follows them. Without digits it sets nothing. */
  datatype Setting = Setting(pattern: CText, spaces: string, sign: string, digits: string, junk: CText)

  /** The parts are what they are called, and the number, if there is one, is an int. */
  predicate WellWritten(e: Setting) {
    && (forall i :: 0 <= i < |e.spaces| ==> IsSpace(e.spaces[i]))
    && (e.sign == "" || e.sign == "+" || e.sign == "-") && IsDigits(e.digits) && ',' !in e.junk
    && (e.junk != "" ==> !('0' <= e.junk[0] <= '9'))
    && (e.junk != "" && e.digits == "" && e.sign == "" ==> !IsSpace(e.junk[0]) && e.junk[0] != '+' && e.junk[0] != '-')
    && IsInt(Signed(e.sign, e.digits))
  }

  function Signed(sign: string, digits: string): (r: int)
    requires IsDigits(digits)
  {
    if sign == "-" then 0 - Value(digits, 10) else Value(digits, 10)
  }

  function Numeral(e: Setting): (r: string) {
    e.spaces + (e.sign + (e.digits + e.junk))
  }

  /** The level it sets, if any. */
  function Level(e: Setting): (r: Option<int>)
    requires WellWritten(e)
  {
    if e.digits == "" then None else Some(Signed(e.sign, e.digits))
  }

  function FlagText(es: seq<Setting>): (r: string)
    decreases |es|, 0
  {
    if es == [] then "" else es[0].pattern + "=" + (Numeral(es[0]) + More(es[1..]))
  }

  /** The settings after the first, each behind a comma. */
  function More(es: seq<Setting>): (r: string)
    decreases |es|, 1
  {
    if es == [] then "" else "," + FlagText(es)
  }

  function Meant(es: seq<Setting>): (r: seq<(string, int)>)
    requires forall i :: 0 <= i < |es| ==> WellWritten(es[i])
  {
    if es == [] then []
    else (if Level(es[0]).Some? then [(es[0].pattern, Level(es[0]).value)] else []) + Meant(es[1..])
  }

  lemma {:induction false} MeantMembers(es: seq<Setting>, i: nat)
    requires i < |es| && forall i :: 0 <= i < |es| ==> WellWritten(es[i])
    ensures Level(es[i]).Some? ==> (es[i].pattern, Level(es[i]).value) in Meant(es)
    decreases |es|
  {
    hide Level, WellWritten;
    if i > 0 {
      MeantMembers(es[1..], i - 1);
    }
  }

  lemma {:induction false} DigitRunOf(d: string, tail: string)
    requires IsDigits(d) && (tail == "" || !('0' <= tail[0] <= '9'))
    ensures DigitRun(d + tail) == |d|
  {
    if d == "" {
      assert d + tail == tail;
    } else {
      DigitRunOf(d[1..], tail);
      assert (d + tail)[1..] == d[1..] + tail;
    }
  }

  lemma {:induction false} SkipThese(spaces: string, t: string)
    requires (forall i :: 0 <= i < |spaces| ==> IsSpace(spaces[i])) && (t == "" || !IsSpace(t[0]))
    ensures SkipSpaces(spaces + t) == t
    decreases |spaces|
  {
    if spaces == "" {
      assert spaces + t == t;
    } else {
      assert (spaces + t)[1..] == spaces[1..] + t;
      SkipThese(spaces[1..], t);
    }
  }

  lemma {:induction false} SignedParts(sign: string, d: string, x: string)
    requires (sign == "" || sign == "+" || sign == "-") && IsDigits(d) && (x != "" ==> !('0' <= x[0] <= '9'))
    requires x != "" && d == "" && sign == "" ==> x[0] != '+' && x[0] != '-'
    ensures ScanSigned(sign + (d + x)) == if d == "" then None else Some(Signed(sign, d))
  {
    hide ScanSigned;
    if sign == "" {
      assert sign + (d + x) == d + x;
      WithoutSign(d, x);
    } else {
      assert sign == [sign[0]];
      WithSign(sign[0], d, x);
    }
  }

  lemma {:induction false} WithoutSign(d: string, x: string)
    requires IsDigits(d) && (x != "" ==> !('0' <= x[0] <= '9')) && (x != "" && d == "" ==> x[0] != '+' && x[0] != '-')
    ensures ScanSigned(d + x) == if d == "" then None else Some(Value(d, 10))
  {
    DigitsAt(d, x);
    hide ScanDigits, Value;
    assert d + x != "" ==> (d + x)[0] == if d != "" then d[0] else x[0];
  }

  lemma {:induction false} WithSign(c: char, d: string, x: string)
    requires (c == '+' || c == '-') && IsDigits(d) && (x != "" ==> !('0' <= x[0] <= '9'))
    ensures ScanSigned([c] + (d + x))
         == if d == "" then None else Some(if c == '-' then 0 - Value(d, 10) else Value(d, 10))
  {
    DigitsAt(d, x);
    hide ScanDigits, Value;
    assert ([c] + (d + x))[1..] == d + x;
  }

  lemma {:induction false} DigitsAt(d: string, x: string)
    requires IsDigits(d) && (x != "" ==> !('0' <= x[0] <= '9'))
    ensures ScanDigits(d + x) == if d == "" then None else Some(Value(d, 10))
  {
    DigitRunOf(d, x);
    hide DigitRun, Value;
    assert (d + x)[..|d|] == d;
  }

  lemma {:induction false} ScanParts(spaces: string, sign: string, d: string, x: string)
    requires (forall i :: 0 <= i < |spaces| ==> IsSpace(spaces[i])) && (sign == "" || sign == "+" || sign == "-")
    requires IsDigits(d) && (x != "" ==> !('0' <= x[0] <= '9'))
    requires x != "" && d == "" && sign == "" ==> !IsSpace(x[0]) && x[0] != '+' && x[0] != '-'
    ensures ScanInt(spaces + (sign + (d + x))) == if d == "" then None else Some(Signed(sign, d))
  {
    hide ScanSigned, Signed, SkipSpaces;
    var t := sign + (d + x);
    assert t != "" ==> t[0] == if sign != "" then sign[0] else if d != "" then d[0] else x[0];
    SkipThese(spaces, t);
    SignedParts(sign, d, x);
  }

  lemma {:induction false} ScanNumeral(e: Setting, tail: string)
    requires WellWritten(e) && (tail == "" || tail[0] == ',')
    ensures ScanInt(Numeral(e) + tail) == Level(e)
  {
    hide ScanInt, Signed;
    var x := e.junk + tail;
    assert Numeral(e) + tail == e.spaces + (e.sign + (e.digits + x));
    ScanParts(e.spaces, e.sign, e.digits, x);
  }

  /** Behind a numeral and a comma the next entry begins. */
  lemma {:induction false} NextAfter(e: Setting, es: seq<Setting>)
    requires WellWritten(e)
    ensures NextEntry(Numeral(e) + More(es)) == FlagText(es)
  {
    var num := Numeral(e);
    assert ',' !in num;
    if es == [] {
      assert num + More(es) == num;
      UpToNone(num, ',');
    } else {
      UpToIn(num, ',', FlagText(es));
      hide FlagText, UpTo, Numeral;
      assert (num + ("," + FlagText(es)))[|num| + 1..] == FlagText(es);
    }
  }

  /** A pattern and what follows its `=`. */
  lemma {:induction false} EntriesAt(pattern: string, rest: string)
    requires '=' !in pattern
    ensures Entries(pattern + "=" + rest)
         == (if ScanInt(rest).Some? then [(pattern, ScanInt(rest).value)] else []) + Entries(NextEntry(rest))
  {
    var text := pattern + "=" + rest;
    assert text == pattern + (['='] + rest);
    UpToIn(pattern, '=', rest);
    hide ScanInt, UpTo, NextEntry;
    assert text[|pattern| + 1..] == rest;
  }

  lemma {:induction false} MoreShape(es: seq<Setting>)
    ensures More(es) == "" || More(es)[0] == ','
    ensures es != [] ==> FlagText(es) == es[0].pattern + "=" + (Numeral(es[0]) + More(es[1..]))
  {
    hide Numeral;
  }

  lemma {:induction false} MeantCons(es: seq<Setting>)
    requires es != [] && forall i :: 0 <= i < |es| ==> WellWritten(es[i])
    ensures Meant(es)
         == (if Level(es[0]).Some? then [(es[0].pattern, Level(es[0]).value)] else []) + Meant(es[1..])
  {
    hide Level, WellWritten;
  }

  lemma {:induction false} EntriesOfFlag(es: seq<Setting>)
    requires forall i :: 0 <= i < |es| ==> WellWritten(es[i]) && '=' !in es[i].pattern
    ensures Entries(FlagText(es)) == Meant(es)
    decreases |es|
  {
    if es != [] {
      hide *;
      var e, rest := es[0], es[1..];
      EntriesOfFlag(rest);
      MoreShape(rest);
      MoreShape(es);
      MeantCons(es);
      ScanNumeral(e, More(rest));
      NextAfter(e, rest);
      EntriesAt(e.pattern, Numeral(e) + More(rest));
    }
  }

  lemma {:induction false} FlagTextPlain(es: seq<Setting>)
    requires forall i :: 0 <= i < |es| ==> WellWritten(es[i])
    ensures '\0' !in FlagText(es)
    decreases |es|
  {
    if es != [] {
      FlagTextPlain(es[1..]);
      assert '\0' !in Numeral(es[0]);
    }
  }

  /** Settings whose patterns hold no `=` are read as meant: each with a number is an entry, in order, and the others
      are skipped. And they are read as meant only if no pattern of a setting with a number holds one. */
  lemma {:induction false} FlagReadBack(es: seq<Setting>)
    requires forall i :: 0 <= i < |es| ==> WellWritten(es[i])
    ensures (forall i :: 0 <= i < |es| ==> '=' !in es[i].pattern) ==> FlagEntries(FlagText(es)) == Meant(es)
    ensures FlagEntries(FlagText(es)) == Meant(es) ==>
              forall i :: 0 <= i < |es| && es[i].digits != "" ==> '=' !in es[i].pattern
  {
    FlagTextPlain(es);
    UpToNone(FlagText(es), '\0');
    hide Entries, FlagText, WellWritten, Meant;
    if forall i :: 0 <= i < |es| ==> '=' !in es[i].pattern {
      EntriesOfFlag(es);
    }
    EntriesPlain(FlagText(es));
    forall i | 0 <= i < |es| && es[i].digits != "" && FlagEntries(FlagText(es)) == Meant(es)
      ensures '=' !in es[i].pattern
    {
      MeantMembers(es, i);
    }
  }
}
