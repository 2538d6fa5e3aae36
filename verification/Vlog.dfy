/**
  glog's per-module verbosity (vlog_is_on.cc): the list of module patterns, the VLOG sites
  that cache a pointer to the level controlling them, and the list of sites cached at the
  default level, which SetVLOGLevel edits in place.
  */
module Vlog {
  import opened Basics
  import opened Glob
  import opened VmoduleFlag

  /** The part of the file name patterns are matched against: no directory, no extension, no "-inl". */
  function BaseName(fname: string): (r: string)
    ensures '/' !in r && '.' !in r
  {
    var base := AfterLastSlash(fname);
    var stem := BeforeDot(base);
    if |stem| >= 4 && stem[|stem| - 4..] == "-inl" then stem[..|stem| - 4] else stem
  }

  function AfterLastSlash(s: string): (r: string)
    ensures '/' !in r
    ensures '/' !in s ==> r == s
  {
    if s == "" then ""
    else if '/' in s[1..] || s[0] == '/' then AfterLastSlash(s[1..])
    else s
  }

  function BeforeDot(s: string): (r: string)
    ensures r <= s && '.' !in r
  {
    if s == "" || s[0] == '.' then "" else [s[0]] + BeforeDot(s[1..])
  }

  /** The base name of a file: behind the last slash, before the first dot after it, and without a final "-inl". */
  lemma {:induction false} BaseNameIs(dir: string, stem: string, tail: string)
    requires dir == "" || dir[|dir| - 1] == '/'
    requires '/' !in stem && '.' !in stem && '/' !in tail && (tail == "" || tail[0] == '.')
    ensures BaseName(dir + (stem + tail))
         == if |stem| >= 4 && stem[|stem| - 4..] == "-inl" then stem[..|stem| - 4] else stem
  {
    AfterDirectory(dir, stem + tail);
    BeforeTail(stem, tail);
  }

  lemma {:induction false} AfterDirectory(dir: string, rest: string)
    requires (dir == "" || dir[|dir| - 1] == '/') && '/' !in rest
    ensures AfterLastSlash(dir + rest) == rest
    decreases |dir|
  {
    var s := dir + rest;
    if dir == "" {
      assert s == rest;
    } else {
      assert s[1..] == dir[1..] + rest;
      if |dir| > 1 {
        assert s[1..][|dir| - 2] == '/';
      }
      AfterDirectory(dir[1..], rest);
    }
  }

  lemma {:induction false} BeforeTail(stem: string, tail: string)
    requires '.' !in stem && (tail == "" || tail[0] == '.')
    ensures BeforeDot(stem + tail) == stem
    decreases |stem|
  {
    if stem == "" {
      assert stem + tail == tail;
    } else {
      assert (stem + tail)[1..] == stem[1..] + tail;
      BeforeTail(stem[1..], tail);
    }
  }

  class ModuleInfo {
    const pattern: string
    var level: int
    var next: ModuleInfo?

    constructor (pattern: string, level: int, next: ModuleInfo?)
      ensures this.pattern == pattern && this.level == level && this.next == next
    {
      this.pattern, this.level, this.next := pattern, level, next;
    }
  }

  /** What a site's level pointer refers to: nothing yet, the default level, or a module's level. */
  datatype LevelPtr = Null | Default | Module(info: ModuleInfo)

  /** A VLOG site; its file name is fixed by the place of the macro. */
  class SiteFlag {
    const fname: string
    var level: LevelPtr
    var baseName: Option<string>
    var next: SiteFlag?
  }

  predicate Hits(m: ModuleInfo, text: string) {
    FnMatch(m.pattern, text)
  }

  /** The index of the first module whose pattern matches `text`, or the length. */
  function FirstHit(mods: seq<ModuleInfo>, text: string): (i: nat)
    ensures i <= |mods|
    ensures i < |mods| ==> Hits(mods[i], text)
    ensures forall k :: 0 <= k < i ==> !Hits(mods[k], text)
  {
    if mods == [] || Hits(mods[0], text) then 0
    else
      var k := FirstHit(mods[1..], text);
      assert forall j :: 1 <= j < |mods| ==> mods[j] == mods[1..][j - 1];
      k + 1
  }

  lemma {:induction false} FirstHitCons(m: ModuleInfo, mods: seq<ModuleInfo>, text: string)
    ensures FirstHit([m] + mods, text) == if Hits(m, text) then 0 else 1 + FirstHit(mods, text)
  {
    hide Hits;
    assert ([m] + mods)[1..] == mods;
  }

  /** A pattern matches its own text, so an exact match is a match. */
  lemma {:induction false} SelfMatch(p: string)
    ensures FnMatch(p, p)
    decreases |p|
  {
    if p != "" {
      SelfMatch(p[1..]);
    }
  }

  /** The sites whose base name the pattern does not match, in order. */
  function Unmatched(pattern: string, sites: seq<SiteFlag>): (r: seq<SiteFlag>)
  {
    if sites == [] then []
    else
      var last := sites[|sites| - 1];
      var r := Unmatched(pattern, sites[..|sites| - 1]);
      if FnMatch(pattern, BaseName(last.fname)) then r else r + [last]
  }

  lemma {:induction false} UnmatchedMembers(pattern: string, sites: seq<SiteFlag>)
    ensures forall s :: s in Unmatched(pattern, sites) <==> s in sites && !FnMatch(pattern, BaseName(s.fname))
    decreases |sites|
  {
    if sites != [] {
      var init := sites[..|sites| - 1];
      UnmatchedMembers(pattern, init);
      assert sites == init + [sites[|sites| - 1]];
    }
  }

  /** The sites among the first `i` whose base name the pattern matches. */
  ghost function Matched(pattern: string, all: seq<SiteFlag>, i: nat): (r: set<SiteFlag>)
    requires i <= |all|
  {
    if i == 0 then {}
    else Matched(pattern, all, i - 1) + if FnMatch(pattern, BaseName(all[i - 1].fname)) then {all[i - 1]} else {}
  }

  lemma {:induction false} MatchedMembers(pattern: string, all: seq<SiteFlag>, i: nat)
    requires i <= |all|
    ensures forall s :: s in Matched(pattern, all, i) <==> s in all[..i] && FnMatch(pattern, BaseName(s.fname))
  {
    if i > 0 {
      MatchedMembers(pattern, all, i - 1);
      assert all[..i] == all[..i - 1] + [all[i - 1]];
    }
  }

  lemma {:induction false} UnmatchedNext(pattern: string, all: seq<SiteFlag>, i: nat)
    requires i < |all|
    ensures Unmatched(pattern, all[..i + 1])
         == Unmatched(pattern, all[..i]) + if FnMatch(pattern, BaseName(all[i].fname)) then [] else [all[i]]
    ensures all[..i + 1] == all[..i] + [all[i]]
  {
    hide FnMatch, BaseName;
    assert all[..i + 1][..i] == all[..i];
  }

  lemma {:induction false} ListAt<T>(kept: seq<T>, all: seq<T>, i: nat)
    requires i < |all|
    ensures var s := kept + all[i..];
            && s == kept + [all[i]] + all[i + 1..] == (kept + [all[i]]) + all[i + 1..]
            && s[|kept|] == all[i]
            && |s| == |kept| + |all| - i
            && (i + 1 < |all| ==> s[|kept| + 1] == all[i + 1])
  {
  }

  /** The list while its first `i` nodes have been visited: those kept, then those still to visit. */
  ghost predicate Scan(pattern: string, all: seq<SiteFlag>, i: nat, kept: seq<SiteFlag>, sites: seq<SiteFlag>) {
    i <= |all| && kept == Unmatched(pattern, all[..i]) && sites == kept + all[i..]
  }

  lemma {:induction false} ScanStep(pattern: string, all: seq<SiteFlag>, i: nat, kept: seq<SiteFlag>,
                                    sites: seq<SiteFlag>)
    requires Scan(pattern, all, i, kept, sites) && i < |all|
    ensures |sites| == |kept| + |all| - i && sites[|kept|] == all[i] && all[i] in sites
    ensures i + 1 < |all| ==> sites[|kept| + 1] == all[i + 1]
    ensures sites == kept + [all[i]] + all[i + 1..]
    ensures if FnMatch(pattern, BaseName(all[i].fname)) then Scan(pattern, all, i + 1, kept, kept + all[i + 1..])
            else Scan(pattern, all, i + 1, kept + [all[i]], sites)
  {
    hide FnMatch, BaseName, Unmatched;
    UnmatchedNext(pattern, all, i);
    ListAt(kept, all, i);
  }

  lemma {:induction false} ScanEnd(pattern: string, all: seq<SiteFlag>, kept: seq<SiteFlag>, sites: seq<SiteFlag>)
    requires Scan(pattern, all, |all|, kept, sites)
    ensures sites == Unmatched(pattern, all)
  {
    hide Unmatched;
    assert all[..|all|] == all && all[|all|..] == [];
  }

  lemma {:induction false} MatchedNext(pattern: string, all: seq<SiteFlag>, i: nat)
    requires i < |all|
    ensures Matched(pattern, all, i + 1)
         == if FnMatch(pattern, BaseName(all[i].fname)) then Matched(pattern, all, i) + {all[i]}
            else Matched(pattern, all, i)
  {
  }

  lemma {:induction false} DistinctConcat<T>(a: seq<T>, b: seq<T>)
    requires Distinct(a) && Distinct(b) && forall x :: x in a ==> x !in b
    ensures Distinct(a + b)
  {
    forall i, j | 0 <= i < j < |a| + |b| ensures (a + b)[i] != (a + b)[j] {
      if i < |a| <= j {
        assert a[i] in a && b[j - |a|] in b;
      }
    }
  }

  /** `nodes` are exactly the nodes reached from `head`, ending in null: no cycle and no repetition. */
  ghost predicate ModuleChain(head: ModuleInfo?, nodes: seq<ModuleInfo>)
    reads nodes`next
  {
    && Distinct(nodes)
    && head == (if nodes == [] then null else nodes[0])
    && forall i {:trigger nodes[i].next} ::
         0 <= i < |nodes| ==> nodes[i].next == if i + 1 < |nodes| then nodes[i + 1] else null
  }

  ghost predicate SiteChain(head: SiteFlag?, nodes: seq<SiteFlag>)
    reads nodes`next
  {
    && Distinct(nodes)
    && head == (if nodes == [] then null else nodes[0])
    && forall i {:trigger nodes[i].next} ::
         0 <= i < |nodes| ==> nodes[i].next == if i + 1 < |nodes| then nodes[i + 1] else null
  }

  /** The sites of `moved` point at the module; every other site has the level it had. */
  ghost predicate Redirected(known: set<SiteFlag>, was: map<SiteFlag, LevelPtr>, moved: set<SiteFlag>, info: ModuleInfo)
    reads known`level
  {
    forall s :: s in known ==> s in was && s.level == if s in moved then Module(info) else was[s]
  }

  /** What the invariant says of one site, its level pointer and the lists. A cached site points at the default
      level iff no pattern matches its base name, and then it is in the list; otherwise it points at the
      module that a search of the list gave when the pointer was set, `stamp` modules ago counted from the
      end of the list. Modules are only ever added at its head. */
  ghost predicate PointerOk(s: SiteFlag, level: LevelPtr, mods: seq<ModuleInfo>, cached: seq<SiteFlag>, stamp: nat,
                            inited: bool)
    reads s`baseName
  {
    var base := BaseName(s.fname);
    && (level.Default? <==> s in cached)
    && (s in cached ==> s.baseName == Some(base))
    && (s.baseName.Some? ==> level != Null)
    && (level.Default? ==> forall m :: m in mods ==> !Hits(m, base))
    && (level.Module? ==> FoundIn(level.info, mods, stamp, base))
    && (!inited ==> level == Null)
  }

  /** `info` is the first of the last `n` modules to match. */
  ghost predicate FoundIn(info: ModuleInfo, mods: seq<ModuleInfo>, n: nat, base: string) {
    n <= |mods| && var tail := mods[|mods| - n..]; var hit := FirstHit(tail, base); hit < n && info == tail[hit]
  }

  lemma {:induction false} FoundHits(info: ModuleInfo, mods: seq<ModuleInfo>, n: nat, base: string)
    requires FoundIn(info, mods, n, base)
    ensures info in mods && Hits(info, base)
  {
    hide Hits;
  }

  lemma {:induction false} FoundStays(info: ModuleInfo, mods: seq<ModuleInfo>, n: nat, base: string, m: ModuleInfo)
    requires FoundIn(info, mods, n, base)
    ensures FoundIn(info, [m] + mods, n, base)
  {
    hide FirstHit;
    var longer := [m] + mods;
    assert longer[|longer| - n..] == mods[|mods| - n..];
  }

  lemma {:induction false} FoundNow(mods: seq<ModuleInfo>, base: string)
    ensures var hit := FirstHit(mods, base); hit < |mods| ==> FoundIn(mods[hit], mods, |mods|, base)
  {
    hide FirstHit;
    assert mods[0..] == mods;
  }

  lemma {:induction false} SiteChainNext(head: SiteFlag?, nodes: seq<SiteFlag>, i: nat)
    requires SiteChain(head, nodes) && i < |nodes|
    ensures nodes[i].next == if i + 1 < |nodes| then nodes[i + 1] else null
  {
  }

  /** The stamps after the matching sites of the list were pointed at the first of `n` modules. */
  ghost function Restamped(known: set<SiteFlag>, stamp: map<SiteFlag, nat>, sites: seq<SiteFlag>, pattern: string,
                           n: nat): (r: map<SiteFlag, nat>)
    requires known <= stamp.Keys
    ensures r.Keys == known
    ensures forall s :: s in known ==>
                          r[s] == if s in sites && FnMatch(pattern, BaseName(s.fname)) then n else stamp[s]
  {
    map s | s in known :: if s in sites && FnMatch(pattern, BaseName(s.fname)) then n else stamp[s]
  }

  /** What the old pointer of a site says about the result of a new search. */
  lemma {:induction false} CachedBefore(s: SiteFlag, level: LevelPtr, mods: seq<ModuleInfo>, cached: seq<SiteFlag>,
                                        stamp: nat, value: LevelPtr)
    requires PointerOk(s, level, mods, cached, stamp, true)
    requires var hit := FirstHit(mods, BaseName(s.fname)); value == if hit < |mods| then Module(mods[hit]) else Default
    ensures s in cached ==> value == Default
    ensures value == Default ==> (s.baseName.None? <==> s !in cached)
    ensures value == Default && s.baseName.Some? ==> s.baseName == Some(BaseName(s.fname))
  {
    hide FoundIn, BaseName, FnMatch;
    if level.Module? {
      FoundHits(level.info, mods, stamp, BaseName(s.fname));
    }
  }

  lemma {:induction false} NewPointer(s: SiteFlag, value: LevelPtr, mods: seq<ModuleInfo>, cached: seq<SiteFlag>,
                                      stamp: nat)
    requires var hit := FirstHit(mods, BaseName(s.fname)); value == if hit < |mods| then Module(mods[hit]) else Default
    requires value == Default <==> s in cached
    requires value == Default ==> s.baseName == Some(BaseName(s.fname))
    requires value.Module? ==> stamp == |mods|
    ensures PointerOk(s, value, mods, cached, stamp, true)
  {
    FoundNow(mods, BaseName(s.fname));
    hide FoundIn, BaseName, FnMatch;
  }

  lemma {:induction false} PointerKeeps(s: SiteFlag, level: LevelPtr, mods: seq<ModuleInfo>, before: seq<SiteFlag>,
                                        after: seq<SiteFlag>, stamp: nat)
    requires PointerOk(s, level, mods, before, stamp, true) && (s in after <==> s in before)
    ensures PointerOk(s, level, mods, after, stamp, true)
  {
  }

  /** The modules made so far are those of the entries, but for the entries still to come. */
  ghost predicate Built(added: seq<ModuleInfo>, all: seq<(string, int)>, left: seq<(string, int)>)
    reads added`level
  {
    && |added| + |left| == |all| && all[|added|..] == left
    && forall i :: 0 <= i < |added| ==> (added[i].pattern, added[i].level) == all[i]
  }

  lemma {:induction false} BuildingStart(head: ModuleInfo?, all: seq<(string, int)>)
    requires head == null
    ensures ModuleChain(head, []) && Built([], all, all)
  {
  }

  lemma {:induction false} BuildingTurn(added: seq<ModuleInfo>, all: seq<(string, int)>, text: string)
    requires Built(added, all, Entries(text))
    ensures var pattern := UpTo(text, '=');
            if |pattern| == |text| then Built(added, all, [])
            else
              var rest := text[|pattern| + 1..];
              var level, next := ScanInt(rest), Entries(NextEntry(rest));
              if level.Some? then Built(added, all, [(pattern, level.value)] + next) else Built(added, all, next)
  {
    hide Built, ScanInt, UpTo, NextEntry;
    var n := |UpTo(text, '=')|;
    if n < |text| {
      assert [] + Entries(NextEntry(text[n + 1..])) == Entries(NextEntry(text[n + 1..]));
    }
  }

  lemma {:induction false} BuiltStep(added: seq<ModuleInfo>, info: ModuleInfo, all: seq<(string, int)>,
                                     next: seq<(string, int)>)
    requires Built(added, all, [(info.pattern, info.level)] + next)
    ensures Built(added + [info], all, next)
  {
    var n := |added|;
    assert all[n..][0] == all[n] && all[n..][1..] == all[n + 1..];
  }

  lemma {:induction false} BuiltAll(added: seq<ModuleInfo>, all: seq<(string, int)>, before: seq<ModuleInfo>,
                                    after: seq<ModuleInfo>)
    requires Built(added, all, []) && after == added + before
    ensures Listed(all, before, after) && |added| == |all|
  {
  }

  /** The entries' modules stand before the old list, in order. */
  ghost predicate Listed(entries: seq<(string, int)>, before: seq<ModuleInfo>, after: seq<ModuleInfo>)
    reads after`level
  {
    && |after| == |entries| + |before| && after[|entries|..] == before
    && forall i :: 0 <= i < |entries| ==> (after[i].pattern, after[i].level) == entries[i]
  }

  /** Setting the level of `pattern` reaches searches for `base`. */
  predicate Governs(mods: seq<ModuleInfo>, pattern: string, base: string) {
    var hit := FirstHit(mods, base);
    if FirstHit(mods, pattern) == |mods| then FnMatch(pattern, base) else hit < |mods| && mods[hit].pattern == pattern
  }

  /** The first module a search finds after the call, by the list before it. */
  lemma {:induction false} SearchAfter(before: seq<ModuleInfo>, after: seq<ModuleInfo>, pattern: string, base: string)
    requires if FirstHit(before, pattern) < |before| then after == before
             else after != [] && after[1..] == before && after[0].pattern == pattern
    ensures var hit, now := FirstHit(before, base), FirstHit(after, base);
            if FirstHit(before, pattern) < |before| then now == hit
            else now == if FnMatch(pattern, base) then 0 else 1 + hit
    ensures forall m :: m in before ==> (FirstHit(before, pattern) == |before| ==> m.pattern != pattern)
    ensures forall k :: 0 <= k < |before| ==> before[k] in before
  {
    if FirstHit(before, pattern) == |before| {
      FirstHitCons(after[0], before, base);
      assert [after[0]] + before == after;
      SelfMatch(pattern);
      assert forall k :: 0 <= k < |before| ==> !Hits(before[k], pattern);
    }
  }

  lemma {:induction false} EffectIff(before: seq<ModuleInfo>, after: seq<ModuleInfo>, pattern: string, level: int)
    requires forall m :: m in before && m.pattern == pattern ==> m.level == level
    requires if FirstHit(before, pattern) < |before| then after == before
             else after != [] && after[1..] == before && after[0].pattern == pattern && after[0].level == level
    ensures (exists m :: m in after && m.pattern == pattern && m.level == level)
       <==> (exists m :: m in before && m.pattern == pattern) || FirstHit(before, pattern) == |before|
  {
    hide FirstHit;
    if FirstHit(before, pattern) == |before| {
      assert after[0] in after;
    }
  }

  /** One site's invariant across the addition of a module, by whether it was redirected. */
  lemma {:induction false} PointerMoves(s: SiteFlag, info: ModuleInfo, mods: seq<ModuleInfo>, before: seq<SiteFlag>,
                                        after: seq<SiteFlag>, stamp: nat, level: LevelPtr, inited: bool)
    requires PointerOk(s, level, mods, before, stamp, inited)
    requires s in after <==> s in before && !Hits(info, BaseName(s.fname))
    ensures if s in before && Hits(info, BaseName(s.fname))
            then PointerOk(s, Module(info), [info] + mods, after, |mods| + 1, inited)
            else PointerOk(s, level, [info] + mods, after, stamp, inited)
  {
    hide Hits, BaseName, FoundIn;
    var base := BaseName(s.fname);
    FirstHitCons(info, mods, base);
    FoundNow([info] + mods, base);
    if level.Module? {
      FoundStays(level.info, mods, stamp, base, info);
    }
  }

  /** The global variables of the file and, as ghosts, the lists they start, the sites of the program, and how many
      modules were listed when each site was last pointed at one. */
  class Registry {
    var moduleList: ModuleInfo?
    var cachedList: SiteFlag?
    var inited: bool
    var defaultLevel: int
    ghost var modules: seq<ModuleInfo>
    ghost var sites: seq<SiteFlag>
    ghost var stamp: map<SiteFlag, nat>
    ghost const known: set<SiteFlag>

    /** At start-up every site of the program has its static initial value. */
    constructor (defaultLevel: int, ghost all: set<SiteFlag>)
      requires forall s :: s in all ==> s.level == Null && s.baseName == None
      ensures Valid() && modules == [] && sites == [] && known == all && !inited
      ensures this.defaultLevel == defaultLevel
    {
      moduleList, cachedList, inited := null, null, false;
      this.defaultLevel := defaultLevel;
      modules, sites, known := [], [], all;
      stamp := map s | s in all :: 0;
    }

    ghost predicate SiteOk(s: SiteFlag)
      requires s in stamp
      reads this, s
    {
      PointerOk(s, s.level, modules, sites, stamp[s], inited)
    }

    ghost predicate Valid()
      reads this, modules, sites, known
    {
      && ModuleChain(moduleList, modules)
      && SiteChain(cachedList, sites)
      && SitesOk()
    }

    ghost predicate SitesOk()
      reads this, known
    {
      && stamp.Keys == known
      && (forall s :: s in sites ==> s in known)
      && (forall s :: s in known ==> SiteOk(s))
    }

    /** The loop of SetVLOGLevel over the modules. */
    method UpdateLevels(pattern: string, logLevel: int) returns (found: bool, result: int)
      requires ModuleChain(moduleList, modules)
      modifies modules`level
      ensures var i := FirstHit(modules, pattern);
              && found == (i < |modules|)
              && result == if found then old(modules[i].level) else defaultLevel
      ensures forall m :: m in modules ==> m.level == if m.pattern == pattern then logLevel else old(m.level)
    {
      ghost var mods, hit := modules, FirstHit(modules, pattern);
      result, found := defaultLevel, false;
      var info := moduleList;
      ghost var i := 0;
      while info != null
        invariant 0 <= i <= |mods|
        invariant info == if i < |mods| then mods[i] else null
        invariant found == (hit < i)
        invariant result == if found then old(mods[hit].level) else defaultLevel
        invariant forall k :: 0 <= k < |mods| ==>
                                mods[k].level == if k < i && mods[k].pattern == pattern then logLevel
                                                 else old(mods[k].level)
        decreases |mods| - i
      {
        assert Hits(mods[i], pattern) ==> hit <= i;
        if info.pattern == pattern {
          SelfMatch(pattern);
          if !found {
            result := info.level;
            found := true;
          }
          info.level := logLevel;
        } else if !found {
          var m := SafeFnMatch(info.pattern, pattern);
          if m {
            result := info.level;
            found := true;
          }
        }
        info := info.next;
        i := i + 1;
      }
    }

    /** Unlink `item`, the node after `prev`, or the first one when `prev` is null. */
    method Unlink(prev: SiteFlag?, item: SiteFlag, ghost kept: seq<SiteFlag>, ghost rest: seq<SiteFlag>)
      requires sites == kept + [item] + rest && SiteChain(cachedList, sites)
      requires if kept == [] then prev == null else prev == kept[|kept| - 1]
      modifies this`cachedList, this`sites, (if prev == null then {} else {prev})`next
      ensures sites == kept + rest && SiteChain(cachedList, sites)
    {
      ghost var before, n := sites, |kept|;
      assert before[n] == item && before[n].next == (if rest == [] then null else rest[0]);
      assert n > 0 ==> before[n - 1] == prev;
      if prev == null {
        cachedList := item.next;
      } else {
        prev.next := item.next;
      }
      sites := kept + rest;
      assert forall i :: 0 <= i < |sites| ==> sites[i] == before[if i < n then i else i + 1];
      forall i | 0 <= i < |sites|
        ensures sites[i].next == if i + 1 < |sites| then sites[i + 1] else null
      {
        var j := if i < n then i else i + 1;
        assert before[j] == sites[i];
        assert i != n - 1 ==> before[j].next == if j + 1 < |before| then before[j + 1] else null;
      }
    }

    /** Point a matching site at the new module and unlink it. */
    method RedirectItem(prev: SiteFlag?, item: SiteFlag, info: ModuleInfo, ghost kept: seq<SiteFlag>,
                        ghost rest: seq<SiteFlag>, ghost was: map<SiteFlag, LevelPtr>, ghost moved: set<SiteFlag>)
      requires sites == kept + [item] + rest && SiteChain(cachedList, sites)
      requires if kept == [] then prev == null else prev == kept[|kept| - 1]
      requires item in known && (prev != null ==> prev in known) && Redirected(known, was, moved, info)
      modifies this`cachedList, this`sites, known`level, known`next
      ensures sites == kept + rest && SiteChain(cachedList, sites)
      ensures Redirected(known, was, moved + {item}, info)
    {
      item.level := Module(info);
      Unlink(prev, item, kept, rest);
    }

    /** The state of the loop over the cached sites after `i` of `all` were visited. */
    ghost predicate Scanning(pattern: string, info: ModuleInfo, all: seq<SiteFlag>, was: map<SiteFlag, LevelPtr>,
                             i: nat, kept: seq<SiteFlag>, prev: SiteFlag?, item: SiteFlag?)
      reads this, sites`next, known`level, known`baseName
    {
      && (forall s :: s in all ==> s in known && s.baseName == Some(BaseName(s.fname)))
      && i <= |all| && Scan(pattern, all, i, kept, sites) && SiteChain(cachedList, sites)
      && item == (if i < |all| then all[i] else null)
      && (if kept == [] then prev == null else prev == kept[|kept| - 1])
      && (prev != null ==> prev in known)
      && Redirected(known, was, Matched(pattern, all, i), info)
    }

    /** One turn of the loop. */
    method Visit(pattern: string, info: ModuleInfo, prev: SiteFlag?, item: SiteFlag,
                 ghost all: seq<SiteFlag>, ghost was: map<SiteFlag, LevelPtr>, ghost i: nat, ghost kept: seq<SiteFlag>)
      returns (prev': SiteFlag?, item': SiteFlag?, ghost kept': seq<SiteFlag>)
      requires i < |all| && Scanning(pattern, info, all, was, i, kept, prev, item)
      modifies this`cachedList, this`sites, known`level, known`next
      ensures Scanning(pattern, info, all, was, i + 1, kept', prev', item')
      ensures item' != null <==> i + 1 < |all|
    {
      hide FnMatch, BaseName, Matched, SiteChain, Redirected, Scan;
      ghost var rest := all[i + 1..];
      ScanStep(pattern, all, i, kept, sites);
      SiteChainNext(cachedList, sites, |kept|);
      MatchedNext(pattern, all, i);
      item' := item.next;
      var matched := SafeFnMatch(pattern, item.baseName.value);
      if matched {
        RedirectItem(prev, item, info, kept, rest, was, Matched(pattern, all, i));
        prev', kept' := prev, kept;
      } else {
        prev', kept' := item, kept + [item];
      }
    }

    /** The loop over the cached sites: each match is pointed at the new module and unlinked. */
    method Redirect(pattern: string, info: ModuleInfo)
      requires SiteChain(cachedList, sites)
      requires forall s :: s in sites ==> s in known && s.baseName == Some(BaseName(s.fname))
      modifies this`cachedList, this`sites, known`level, known`next
      ensures sites == Unmatched(pattern, old(sites)) && SiteChain(cachedList, sites)
      ensures forall s :: s in known ==>
                            s.level == if s in old(sites) && FnMatch(pattern, BaseName(s.fname)) then Module(info)
                                       else old(s.level)
    {
      ghost var all := sites;
      ghost var was := map s | s in known :: s.level;
      ghost var kept: seq<SiteFlag> := [];
      ghost var i := 0;
      var prev: SiteFlag? := null;
      var item := cachedList;
      ScanningStart(pattern, info, was);
      hide *;
      while item != null
        invariant 0 <= i <= |all| && (item != null <==> i < |all|)
        invariant Scanning(pattern, info, all, was, i, kept, prev, item)
        decreases |all| - i
      {
        prev, item, kept := Visit(pattern, info, prev, item, all, was, i, kept);
        i := i + 1;
      }
      ScanningEnd(pattern, info, all, was, kept, prev, item);
    }

    lemma {:induction false} ScanningStart(pattern: string, info: ModuleInfo, was: map<SiteFlag, LevelPtr>)
      requires SiteChain(cachedList, sites)
      requires forall s :: s in sites ==> s in known && s.baseName == Some(BaseName(s.fname))
      requires was == map s | s in known :: s.level
      ensures Scanning(pattern, info, sites, was, 0, [], null, cachedList)
      ensures cachedList != null <==> 0 < |sites|
    {
    }

    lemma {:induction false} ScanningEnd(pattern: string, info: ModuleInfo, all: seq<SiteFlag>,
                                         was: map<SiteFlag, LevelPtr>, kept: seq<SiteFlag>, prev: SiteFlag?,
                                         item: SiteFlag?)
      requires Scanning(pattern, info, all, was, |all|, kept, prev, item)
      ensures sites == Unmatched(pattern, all) && SiteChain(cachedList, sites)
      ensures forall s :: s in known ==>
                            s in was && s.level == if s in all && FnMatch(pattern, BaseName(s.fname)) then Module(info)
                                                   else was[s]
    {
      hide FnMatch, BaseName, SiteChain;
      ScanEnd(pattern, all, kept, sites);
      MatchedMembers(pattern, all, |all|);
      assert all[..|all|] == all;
    }

    /** The level a search of the list gives a base name. */
    ghost function SearchLevel(base: string): (r: int)
      reads this`modules, this`defaultLevel, modules
    {
      var hit := FirstHit(modules, base);
      if hit < |modules| then modules[hit].level else defaultLevel
    }

    /** SetVLOGLevel. Modules with exactly this pattern take the level. Only when no listed pattern matches the
        text of the new one is a module added, at the head; the sites cached at the default level that it
        matches are then redirected to it. The result is the level that applied before. So the call takes
        effect, leaving a module with this pattern and level, exactly when the pattern is listed already or
        no listed pattern matches its text. It governs a base name, for every level, exactly when the pattern
        matches that and was added or is the pattern of the first module to match; otherwise a search gives
        what it gave before. */
    method SetVlogLevel(pattern: string, logLevel: int) returns (result: int)
      requires Valid()
      modifies this`moduleList, this`modules, this`cachedList, this`sites, this`stamp
      modifies modules`level, known`level, known`next
      ensures Valid()
      ensures var hit := FirstHit(old(modules), pattern);
              result == if hit < |old(modules)| then old(modules[hit].level) else defaultLevel
      ensures forall m :: m in old(modules) ==> m.level == if m.pattern == pattern then logLevel else old(m.level)
      ensures if FirstHit(old(modules), pattern) < |old(modules)| then
                && modules == old(modules) && sites == old(sites) && stamp == old(stamp)
                && forall s :: s in known ==> s.level == old(s.level)
              else
                && |modules| == 1 + |old(modules)| && modules[1..] == old(modules)
                && fresh(modules[0]) && modules[0].pattern == pattern && modules[0].level == logLevel
                && sites == Unmatched(pattern, old(sites))
                && (forall s :: s in known ==>
                                  s.level == if s in old(sites) && FnMatch(pattern, BaseName(s.fname))
                                             then Module(modules[0]) else old(s.level))
                && forall s :: s in known ==>
                                 s in stamp && s in old(stamp)
                                 && stamp[s] == if s in old(sites) && FnMatch(pattern, BaseName(s.fname))
                                                then |modules| else old(stamp)[s]
      ensures (exists m :: m in modules && m.pattern == pattern && m.level == logLevel)
         <==> (exists m :: m in old(modules) && m.pattern == pattern)
              || FirstHit(old(modules), pattern) == |old(modules)|
      ensures forall base: string ::
                SearchLevel(base) == if Governs(old(modules), pattern, base) then logLevel else old(SearchLevel(base))
    {
      hide FnMatch, BaseName, Unmatched, SiteChain, ModuleChain, FirstHit, PointerOk;
      ghost var before := modules;
      var found;
      found, result := UpdateLevels(pattern, logLevel);
      if !found {
        AddAndRedirect(pattern, logLevel);
      }
      EffectIff(before, modules, pattern, logLevel);
      forall base: string
        ensures SearchLevel(base) == if Governs(before, pattern, base) then logLevel else old(SearchLevel(base))
      {
        SearchAfter(before, modules, pattern, base);
      }
    }

    /** The part of SetVLOGLevel for a pattern whose text no listed one matches. */
    method AddAndRedirect(pattern: string, logLevel: int)
      requires Valid()
      modifies this`moduleList, this`modules, this`cachedList, this`sites, this`stamp, known`level, known`next
      ensures Valid()
      ensures |modules| == 1 + |old(modules)| && modules[1..] == old(modules)
      ensures fresh(modules[0]) && modules[0].pattern == pattern && modules[0].level == logLevel
      ensures sites == Unmatched(pattern, old(sites))
      ensures forall s :: s in known ==>
                            s.level == if s in old(sites) && FnMatch(pattern, BaseName(s.fname)) then Module(modules[0])
                                       else old(s.level)
      ensures forall s :: s in known ==>
                            s in stamp && s in old(stamp)
                            && stamp[s] == if s in old(sites) && FnMatch(pattern, BaseName(s.fname)) then |modules|
                                           else old(stamp)[s]
    {
      hide FnMatch, BaseName, Unmatched, SiteChain, ModuleChain, PointerOk;
      ghost var was := map s | s in known :: s.level;
      ghost var oldModules, oldSites, oldStamp := modules, sites, stamp;
      SnapshotOk(was);
      var info := AddModule(pattern, logLevel);
      Redirect(pattern, info);
      stamp := Restamped(known, oldStamp, oldSites, pattern, |modules|);
      Redirection(pattern, info, oldModules, oldSites, oldStamp, was);
    }

    /** The invariant, said of the levels as they are now. */
    lemma {:induction false} SnapshotOk(was: map<SiteFlag, LevelPtr>)
      requires SitesOk() && was == map s | s in known :: s.level
      ensures forall s :: s in known ==>
                            s in was && s in stamp && PointerOk(s, was[s], modules, sites, stamp[s], inited)
      ensures forall s :: s in sites ==> s in known && s.baseName == Some(BaseName(s.fname))
    {
    }

    method AddModule(pattern: string, level: int) returns (info: ModuleInfo)
      requires ModuleChain(moduleList, modules)
      modifies this`moduleList, this`modules
      ensures fresh(info) && info.pattern == pattern && info.level == level
      ensures modules == [info] + old(modules) && ModuleChain(moduleList, modules)
    {
      info := new ModuleInfo(pattern, level, moduleList);
      ghost var before := modules;
      moduleList := info;
      modules := [info] + before;
      forall i | 0 <= i < |modules| ensures modules[i].next == if i + 1 < |modules| then modules[i + 1] else null {
        if i > 0 {
          assert before[i - 1].next == if i < |before| then before[i] else null;
        }
      }
    }

    /** Redirecting the matching sites restores the invariant for the longer list. */
    lemma {:induction false} Redirection(pattern: string, info: ModuleInfo, oldModules: seq<ModuleInfo>,
                                         oldSites: seq<SiteFlag>, oldStamp: map<SiteFlag, nat>,
                                         was: map<SiteFlag, LevelPtr>)
      requires info.pattern == pattern && modules == [info] + oldModules && sites == Unmatched(pattern, oldSites)
      requires known <= oldStamp.Keys && forall s :: s in oldSites ==> s in known
      requires forall s :: s in known ==>
                             s in was && PointerOk(s, was[s], oldModules, oldSites, oldStamp[s], inited)
      requires forall s :: s in known ==>
                             s.level == if s in oldSites && FnMatch(pattern, BaseName(s.fname)) then Module(info)
                                        else was[s]
      requires stamp == Restamped(known, oldStamp, oldSites, pattern, |modules|)
      ensures SitesOk()
    {
      hide FnMatch, BaseName, Unmatched, PointerOk;
      UnmatchedMembers(pattern, oldSites);
      forall s | s in known ensures SiteOk(s) {
        var moved := s in oldSites && FnMatch(pattern, BaseName(s.fname));
        PointerMoves(s, info, oldModules, oldSites, sites, oldStamp[s], was[s], inited);
      }
    }

    /** VLOG2Initializer: the modules of the flag's entries go to the head of the list, in order. */
    method Initialize(flag: string)
      requires Valid() && !inited && NumbersFit(flag)
      modifies this`moduleList, this`modules, this`inited
      ensures Valid() && inited
      ensures Listed(FlagEntries(flag), old(modules), modules)
      ensures forall i :: 0 <= i < |FlagEntries(flag)| ==> fresh(modules[i])
    {
      hide BaseName, FnMatch, ScanInt, Entries, NumbersFit, NextEntry, UpTo, ModuleChain, Built, SitesOk, Listed;
      Uncached();
      var head: ModuleInfo?, tail: ModuleInfo? := null, null;
      ghost var added: seq<ModuleInfo> := [];
      var vmodule := UpTo(flag, '\0');
      BuildingStart(head, FlagEntries(flag));
      while true
        invariant ModuleChain(head, added) && Built(added, FlagEntries(flag), Entries(vmodule))
        invariant forall i :: 0 <= i < |added| ==> fresh(added[i]) && added[i] !in modules
        invariant if added == [] then head == tail == null else head != null && tail == added[|added| - 1]
        invariant modules == old(modules) && ModuleChain(moduleList, modules) && !inited
        decreases |vmodule|
      {
        BuildingTurn(added, FlagEntries(flag), vmodule);
        var pattern := UpTo(vmodule, '=');
        if |pattern| == |vmodule| {
          break;
        }
        vmodule := vmodule[|pattern| + 1..];
        var level := ScanInt(vmodule);
        if level.Some? {
          ghost var sofar := added;
          head, tail, added := Append(head, tail, added, pattern, level.value);
          BuiltStep(sofar, tail, FlagEntries(flag), Entries(NextEntry(vmodule)));
        }
        vmodule := NextEntry(vmodule);
      }
      Splice(head, tail, added);
      BuiltAll(added, FlagEntries(flag), old(modules), modules);
      inited := true;
      UncachedOk();
    }

    /** Append a module to the list under construction. */
    method Append(head: ModuleInfo?, tail: ModuleInfo?, ghost added: seq<ModuleInfo>, pattern: string, level: int)
      returns (head': ModuleInfo?, tail': ModuleInfo, ghost added': seq<ModuleInfo>)
      requires ModuleChain(head, added)
      requires if added == [] then head == tail == null else head != null && tail == added[|added| - 1]
      modifies added`next
      ensures ModuleChain(head', added') && head' != null && fresh(tail')
      ensures added' == added + [tail'] && tail'.pattern == pattern && tail'.level == level
    {
      var info := new ModuleInfo(pattern, level, null);
      ghost var n := |added|;
      assert forall i :: 0 <= i < n - 1 ==> added[i] != tail;
      head' := head;
      if head != null {
        tail.next := info;
      } else {
        head' := info;
      }
      tail' := info;
      added' := added + [info];
      forall i | 0 <= i < |added'| ensures added'[i].next == if i + 1 < |added'| then added'[i + 1] else null {
        if i + 1 < n {
          assert added[i].next == added[i + 1];
        }
      }
    }

    /** Before the flag is read no site is cached, so the list may change under them. */
    lemma {:induction false} Uncached()
      requires SitesOk() && !inited
      ensures stamp.Keys == known && (forall s :: s in sites ==> s in known)
      ensures forall s :: s in known ==> s.level == Null && s.baseName == None && s !in sites
    {
      forall s | s in known ensures s.level == Null && s.baseName == None && s !in sites {
        assert SiteOk(s);
      }
    }

    lemma {:induction false} UncachedOk()
      requires stamp.Keys == known && (forall s :: s in sites ==> s in known)
      requires forall s :: s in known ==> s.level == Null && s.baseName == None && s !in sites
      ensures SitesOk()
    {
    }

    /** Put the new modules, if there are any, before the list. */
    method Splice(head: ModuleInfo?, tail: ModuleInfo?, ghost added: seq<ModuleInfo>)
      requires ModuleChain(moduleList, modules) && ModuleChain(head, added)
      requires if added == [] then tail == null else tail == added[|added| - 1]
      requires forall m :: m in added ==> m !in modules
      modifies this`moduleList, this`modules, added`next
      ensures modules == added + old(modules) && ModuleChain(moduleList, modules)
    {
      ghost var before, n := modules, |added|;
      assert forall i :: 0 <= i < n - 1 ==> added[i] != tail;
      assert forall i :: 0 <= i < |before| ==> before[i] !in added;
      DistinctConcat(added, before);
      hide Distinct;
      if head != null {
        tail.next := moduleList;
        moduleList := head;
      }
      modules := added + before;
      forall i | 0 <= i < |modules| ensures modules[i].next == if i + 1 < |modules| then modules[i + 1] else null {
        if i >= n {
          assert modules[i] == before[i - n];
          assert before[i - n].next == if i - n + 1 < |before| then before[i - n + 1] else null;
        } else if i + 1 < n {
          assert added[i].next == added[i + 1];
        }
      }
    }

    /** InitVLOG3__: decide whether the site logs, and cache the controlling level once the flag has been read. */
    method InitVlog(site: SiteFlag, verbose: int, flag: string) returns (on: bool)
      requires Valid() && site in known && NumbersFit(flag)
      modifies this`moduleList, this`modules, this`inited, this`cachedList, this`sites, this`stamp, site
      ensures Valid() && inited
      ensures old(inited) ==> modules == old(modules)
      ensures !old(inited) ==> Listed(FlagEntries(flag), old(modules), modules) && stamp == old(stamp)
                               && forall i :: 0 <= i < |FlagEntries(flag)| ==> fresh(modules[i])
      ensures site.level == if !old(inited) then old(site.level) else Fresh(site)
      ensures old(inited) ==> stamp == if site.level.Module? then old(stamp)[site := |modules|] else old(stamp)
      ensures on == ((match Fresh(site) case Module(m) => m.level case _ => defaultLevel) >= verbose)
    {
      var readFlag := inited;
      if !readFlag {
        Initialize(flag);
      }
      hide FnMatch, BaseName, ModuleChain, SiteChain;
      var base := BaseName(site.fname);
      var value, level := Lookup(base);
      if readFlag {
        Cache(site, base, value);
      }
      on := level >= verbose;
    }

    /** What a search of the list as it is now would point the site at. */
    ghost function Fresh(s: SiteFlag): (r: LevelPtr)
      reads this`modules
    {
      var hit := FirstHit(modules, BaseName(s.fname));
      if hit < |modules| then Module(modules[hit]) else Default
    }

    /** The search for the first matching module. */
    method Lookup(base: string) returns (value: LevelPtr, level: int)
      requires ModuleChain(moduleList, modules)
      ensures var hit := FirstHit(modules, base);
              && value == (if hit < |modules| then Module(modules[hit]) else Default)
              && level == if hit < |modules| then modules[hit].level else defaultLevel
    {
      ghost var hit := FirstHit(modules, base);
      value, level := Default, defaultLevel;
      var info := moduleList;
      ghost var i := 0;
      while info != null
        invariant 0 <= i <= |modules| && i <= hit
        invariant info == if i < |modules| then modules[i] else null
        decreases |modules| - i
      {
        var m := SafeFnMatch(info.pattern, base);
        assert m == Hits(modules[i], base);
        if m {
          value, level := Module(info), info.level;
          return;
        }
        info := info.next;
        i := i + 1;
      }
    }

    /** Store the pointer, and put the site in the list the first time it falls to the default level. */
    method Cache(site: SiteFlag, base: string, value: LevelPtr)
      requires Valid() && inited && site in known && base == BaseName(site.fname)
      requires var hit := FirstHit(modules, base); value == if hit < |modules| then Module(modules[hit]) else Default
      modifies this`cachedList, this`sites, this`stamp, site
      ensures Valid() && site.level == value
      ensures stamp == if value.Module? then old(stamp)[site := |modules|] else old(stamp)
    {
      hide FnMatch, BaseName, FoundIn, PointerOk, FirstHit;
      assert SiteOk(site);
      ghost var before := sites;
      CachedBefore(site, site.level, modules, sites, stamp[site], value);
      site.level := value;
      if value.Module? {
        stamp := stamp[site := |modules|];
      }
      if value == Default && site.baseName.None? {
        site.baseName := Some(base);
        site.next := cachedList;
        cachedList := site;
        sites := [site] + sites;
        forall i | 0 <= i < |sites| ensures sites[i].next == if i + 1 < |sites| then sites[i + 1] else null {
          if i > 0 {
            assert before[i - 1].next == if i < |before| then before[i] else null;
          }
        }
      }
      NewPointer(site, value, modules, sites, stamp[site]);
      forall s | s in known ensures SiteOk(s) {
        if s != site {
          assert old(SiteOk(s));
          PointerKeeps(s, s.level, modules, before, sites, stamp[s]);
        }
      }
    }

    /** What coherence means for globs: as long as its base name holds no star, a cached site is at the default
        level exactly when none of the globs the listed patterns amount to matches it. */
    lemma {:induction false} CoherentMeaning(s: SiteFlag)
      requires Valid() && s in known && s.level != Null && '*' !in BaseName(s.fname)
      ensures s.level.Default? <==> forall m :: m in modules ==> !Matches(Effective(m.pattern), BaseName(s.fname))
    {
      hide FoundIn, BaseName, Matches, FnMatch;
      var base := BaseName(s.fname);
      assert SiteOk(s);
      if s.level.Module? {
        FoundHits(s.level.info, modules, stamp[s], base);
      }
      forall m | m in modules ensures Hits(m, base) == Matches(Effective(m.pattern), base) {
        ExactMeaning(m.pattern, base);
      }
    }

    /** When a cached pointer is out of date, after any sequence of calls: it differs from what a new search would
        give exactly when it points at a module and some pattern added since it was set matches the site. */
    lemma {:induction false} FreshIff(s: SiteFlag)
      requires Valid() && s in known && s.level != Null
      ensures s in stamp && (s.level.Module? ==> stamp[s] <= |modules|)
      ensures s.level == Fresh(s) <==>
                s.level.Module? ==> forall k :: 0 <= k < |modules| - stamp[s] ==> !Hits(modules[k], BaseName(s.fname))
    {
      hide BaseName, Hits;
      var base := BaseName(s.fname);
      assert SiteOk(s);
      if s.level.Module? {
        var n := |modules| - stamp[s];
        var tail := modules[n..];
        var hit, first := FirstHit(tail, base), FirstHit(modules, base);
        assert tail[hit] == modules[n + hit] && Hits(modules[n + hit], base);
        assert forall k :: 0 <= k < hit ==> tail[k] == modules[n + k];
        assert forall k :: n <= k < n + hit ==> modules[k] == tail[k - n];
      }
    }
  }

  datatype Call = Init(site: SiteFlag, verbose: int) | Set(pattern: string, level: int)

  lemma {:induction false} ListedModules(entries: seq<(string, int)>, before: seq<ModuleInfo>, after: seq<ModuleInfo>,
                                         first: bool)
    requires first ==> Listed(entries, before, after)
    ensures first ==> |after| == |entries| + |before| && after == after[..|entries|] + before
  {
  }

  method Step(r: Registry, call: Call, flag: string)
    requires r.Valid() && (call.Init? ==> call.site in r.known) && NumbersFit(flag)
    modifies r, r.modules, r.known
    ensures r.Valid() && forall k :: 0 <= k < |r.modules| ==> r.modules[k] in old(r.modules) || fresh(r.modules[k])
  {
    hide *;
    ghost var before := r.modules;
    match call
    case Init(site, verbose) =>
      ghost var first := !r.inited;
      var _ := r.InitVlog(site, verbose, flag);
      ListedModules(FlagEntries(flag), before, r.modules, first);
    case Set(pattern, level) =>
      var _ := r.SetVlogLevel(pattern, level);
      assert r.modules == before || r.modules == [r.modules[0]] + before;
  }

  /** Any sequence of calls keeps the cache coherent and the lists well formed. */
  method Run(r: Registry, calls: seq<Call>, flag: string)
    requires r.Valid() && NumbersFit(flag)
    requires forall i :: 0 <= i < |calls| && calls[i].Init? ==> calls[i].site in r.known
    modifies r, r.modules, r.known
    ensures r.Valid()
  {
    hide *;
    for i := 0 to |calls|
      invariant r.Valid() && forall k :: 0 <= k < |r.modules| ==> r.modules[k] in old(r.modules) || fresh(r.modules[k])
    {
      Step(r, calls[i], flag);
    }
  }

  // ----- examples

  lemma {:induction false} StarFirst(mods: seq<ModuleInfo>, text: string)
    requires mods != [] && mods[0].pattern == "*" && '*' !in text
    ensures FirstHit(mods, text) == 0
  {
    assert Hits(mods[0], text);
  }

  lemma {:induction false} FlagOf(pattern: CText)
    requires '=' !in pattern
    ensures FlagEntries(pattern + "=1") == [(pattern, 1)] && NumbersFit(pattern + "=1") && NumbersFit("")
  {
    var e := Setting(pattern, "", "", "1", "");
    assert [e][1..] == [] && Numeral(e) + More([]) == "1";
    assert FlagText([e]) == pattern + "=" + "1" == pattern + "=1";
    assert Numerals.Value("1", 10) == 1;
    FlagReadBack([e]);
    assert Meant([e]) == [(pattern, 1)] + Meant([]);
  }

  /** A call that takes no effect: with `*` listed alone, "foo" is refused. */
  method RefusedCall(level: int) returns (r: Registry)
    ensures fresh(r) && |r.modules| == 1 && r.modules[0].pattern == "*" && r.modules[0].level == 1
  {
    FlagOf("*");
    hide FnMatch, Entries, FirstHit, PointerOk;
    r := new Registry(0, {});
    r.Initialize("*" + "=1");
    StarFirst(r.modules, "foo");
    var _ := r.SetVlogLevel("foo", level);
  }

  /** A call whose level governs nothing: `*` stands before `foo`, so it decides for every name. */
  lemma {:induction false} ShadowedPattern(mods: seq<ModuleInfo>, base: string)
    requires |mods| >= 2 && mods[0].pattern == "*" && mods[1].pattern == "foo" && '*' !in base
    ensures !Governs(mods, "foo", base)
  {
    StarFirst(mods, "foo");
    StarFirst(mods, base);
  }

  lemma {:induction false} StaleMatches()
    ensures FnMatch("foo*", "foobar") && !FnMatch("foo*", "f*") && FnMatch("f*", "foobar")
  {
    assert FnMatch("*", "bar") && FnMatch("*", "oobar");
    assert "foo*"[1..] == "oo*" && "oo*"[1..] == "o*" && "o*"[1..] == "*" && "f*"[1..] == "*";
    assert "foobar"[1..] == "oobar" && "oobar"[1..] == "obar" && "obar"[1..] == "bar";
    assert FnMatch("o*", "obar");
    assert FnMatch("oo*", "oobar");
    assert !FnMatch("oo*", "*");
  }

  lemma {:induction false} OneModule(mods: seq<ModuleInfo>, text: string)
    requires |mods| == 1
    ensures FirstHit(mods, text) == if Hits(mods[0], text) then 0 else 1
  {
  }

  /** The site foobar cached at `foo*`, the only module. */
  method CachedSite(site: SiteFlag) returns (r: Registry)
    requires site.level == Null && site.baseName == None && BaseName(site.fname) == "foobar"
    modifies site
    ensures fresh(r) && r.Valid() && r.known == {site}
    ensures |r.modules| == 1 && fresh(r.modules[0]) && r.modules[0].pattern == "foo*"
    ensures site.level == Module(r.modules[0])
  {
    FlagOf("foo*");
    StaleMatches();
    hide *;
    r := new Registry(0, {site});
    var _ := r.InitVlog(site, 0, "foo*" + "=1");
    OnlyEntry("foo*", [], r.modules);
    var _ := r.InitVlog(site, 0, "");
    SearchOne(r, site);
  }

  lemma {:induction false} OnlyEntry(pattern: string, before: seq<ModuleInfo>, after: seq<ModuleInfo>)
    requires before == [] && Listed([(pattern, 1)], before, after)
    ensures |after| == 1 && after[0].pattern == pattern
  {
  }

  lemma {:induction false} SearchOne(r: Registry, site: SiteFlag)
    requires |r.modules| == 1 && r.modules[0].pattern == "foo*" && BaseName(site.fname) == "foobar"
    requires FnMatch("foo*", "foobar")
    ensures r.Fresh(site) == Module(r.modules[0])
  {
    hide FnMatch, BaseName;
    assert Hits(r.modules[0], "foobar");
    OneModule(r.modules, "foobar");
  }

  /** A pointer out of date: when `f*` is then added at the head, the site stays with `foo*`. */
  method StaleSite(site: SiteFlag) returns (r: Registry)
    requires site.level == Null && site.baseName == None && BaseName(site.fname) == "foobar"
    modifies site
    ensures fresh(r) && r.Valid() && site in r.known && site.level.Module? && site.level.info.pattern == "foo*"
    ensures r.Fresh(site).Module? && r.Fresh(site).info.pattern == "f*"
  {
    r := CachedSite(site);
    StaleMatches();
    hide FnMatch, BaseName, FirstHit, PointerOk, ModuleChain, SiteChain, Unmatched, FoundIn;
    assert !Hits(r.modules[0], "f*");
    OneModule(r.modules, "f*");
    ghost var info := r.modules[0];
    var _ := r.SetVlogLevel("f*", 2);
    assert Hits(r.modules[0], "foobar");
    FirstHitCons(r.modules[0], r.modules[1..], "foobar");
    assert [r.modules[0]] + r.modules[1..] == r.modules;
  }
}
