/**
  The length, rollover and page-drop accounting of glog's LogFileObject::Write. Counters are
  32-bit words and additions wrap explicitly; clocks, the file system and the process id are
  inputs of each call.
  */
module LogFile {
  import opened Basics

  const TWO32: nat := 0x1_0000_0000
  const MIB: nat := 0x10_0000
  const ATTEMPTS: nat := 32

  type u32 = n: int | 0 <= n < 0x1_0000_0000

  function Add(a: u32, b: nat): (r: u32) {
    (a + b) % TWO32
  }

  /** MaxLogSize: the flag, or 1 when it is out of range. */
  function MaxLogSize(flag: u32): (r: nat)
    ensures 1 <= r <= 4095
  {
    if 0 < flag < 4096 then flag else 1
  }

  /** The fields of the object that Write updates, with the shared stop_writing flag. */
  datatype Core = Core(open: bool, length: u32, sinceFlush: u32, dropped: u32, attempt: u32, stop: bool)

  const FRESH: Core := Core(false, 0, 0, 0, 31, false)

  /** What one call of Write meets: no base name, the size flag, a fork, whether a file can be created, the
      header and message sizes, a full disk, a forced flush, the flush deadline, and the drop flag. */
  datatype Env = Env(unnamed: bool, sizeFlag: u32, forked: bool, creatable: bool, header: nat, message: nat,
                     diskFull: bool, force: bool, due: bool, dropFlag: bool)

  /** A range of the file: its first offset and its length. */
  datatype Range = Range(start: nat, len: nat)

  /** A call's new state, whether it created a file, and the range it advised the kernel to drop. */
  datatype Outcome = Outcome(core: Core, created: bool, advice: Option<Range>)

  predicate RollsOver(c: Core, e: Env) {
    c.length / MIB >= MaxLogSize(e.sizeFlag) || e.forked
  }

  function Rolled(c: Core, e: Env): (r: Core) {
    if RollsOver(c, e) then Core(false, 0, 0, 0, 31, c.stop) else c
  }

  /** With no file: count the attempt, try to create one on every 32nd, and start it with a header. Also whether
      one was created. */
  function Opened(c: Core, e: Env): (r: (Core, bool)) {
    if c.open then (c, false)
    else
      var n := Add(c.attempt, 1);
      if n != ATTEMPTS then (c.(attempt := n), false)
      else if !e.creatable then (c.(attempt := 0), false)
      else
        (c.(attempt := 0, open := true, length := Add(c.length, e.header), sinceFlush := Add(c.sinceFlush, e.header)),
         true)
  }

  /** The bookkeeping after a flush: what to drop so that the most recent one to two MiB stay cached. */
  function DropAdvice(c: Core): (r: Option<Range>) {
    if c.length < 3 * MIB then None
    else
      var total := (c.length - c.length % MIB) - MIB;
      var more := (total - c.dropped) % TWO32;
      if more >= 2 * MIB then Some(Range(c.dropped, more)) else None
  }

  function Flushed(c: Core, e: Env): (r: (Core, Option<Range>)) {
    if !(e.force || c.sinceFlush >= 1000000 || e.due) then (c, None)
    else
      var f := c.(sinceFlush := 0);
      if e.dropFlag && DropAdvice(f).Some? then
        (f.(dropped := (f.length - f.length % MIB) - MIB), DropAdvice(f))
      else (f, None)
  }

  /** LogFileObject::Write */
  function Write(c: Core, e: Env): (r: Outcome) {
    if e.unnamed then Outcome(c, false, None)
    else
      var (o, created) := Opened(Rolled(c, e), e);
      if !o.open then Outcome(o, false, None)
      else if o.stop then Outcome(o.(stop := !e.due), created, None)
      else if e.diskFull then Outcome(o.(stop := true), created, None)
      else
        var w := o.(length := Add(o.length, e.message), sinceFlush := Add(o.sinceFlush, e.message));
        var (f, advice) := Flushed(w, e);
        Outcome(f, created, advice)
  }

  /** The public Flush. */
  function FlushedNow(c: Core): (r: Core) {
    if c.open then c.(sinceFlush := 0) else c
  }

  /** SetBasename and SetExtension when the name changes: the file is closed, the counters stay. */
  function Renamed(c: Core): (r: Core) {
    if c.open then c.(open := false, attempt := 31) else c
  }

  /** The object itself. */
  class LogFileObject {
    var file: bool
    var fileLength: u32
    var bytesSinceFlush: u32
    var droppedMemLength: u32
    var rolloverAttempt: u32
    var stopWriting: bool

    ghost function State(): (c: Core)
      reads this
    {
      Core(file, fileLength, bytesSinceFlush, droppedMemLength, rolloverAttempt, stopWriting)
    }

    constructor ()
      ensures State() == FRESH
    {
      file, fileLength, bytesSinceFlush, droppedMemLength, rolloverAttempt := false, 0, 0, 0, 31;
      stopWriting := false;
    }

    method CloseForRename()
      modifies this
      ensures State() == Renamed(old(State()))
    {
      if file {
        file := false;
        rolloverAttempt := 31;
      }
    }

    method Flush()
      modifies this
      ensures State() == FlushedNow(old(State()))
    {
      if file {
        bytesSinceFlush := 0;
      }
    }

    method WriteMessage(e: Env) returns (advice: Option<Range>)
      modifies this
      ensures var r := Write(old(State()), e); State() == r.core && advice == r.advice
    {
      hide Rolled, Opened, Flushed;
      advice := None;
      if e.unnamed {
        return;
      }
      RollOver(e);
      EnsureFile(e);
      if !file {
        return;
      }
      if !stopWriting {
        if e.diskFull {
          stopWriting := true;
          return;
        } else {
          fileLength := Add(fileLength, e.message);
          bytesSinceFlush := Add(bytesSinceFlush, e.message);
        }
      } else {
        if e.due {
          stopWriting := false;
        }
        return;
      }
      advice := FlushAndDrop(e);
    }

    method RollOver(e: Env)
      modifies this
      ensures State() == Rolled(old(State()), e)
    {
      if fileLength / MIB >= MaxLogSize(e.sizeFlag) || e.forked {
        file := false;
        fileLength, bytesSinceFlush, droppedMemLength := 0, 0, 0;
        rolloverAttempt := 31;
      }
    }

    method EnsureFile(e: Env)
      modifies this
      ensures State() == Opened(old(State()), e).0
    {
      hide Add;
      if !file {
        rolloverAttempt := Add(rolloverAttempt, 1);
        if rolloverAttempt != ATTEMPTS {
          return;
        }
        rolloverAttempt := 0;
        if !e.creatable {
          return;
        }
        file := true;
        fileLength := Add(fileLength, e.header);
        bytesSinceFlush := Add(bytesSinceFlush, e.header);
      }
    }

    method FlushAndDrop(e: Env) returns (advice: Option<Range>)
      modifies this
      ensures State() == Flushed(old(State()), e).0 && advice == Flushed(old(State()), e).1
    {
      advice := None;
      if e.force || bytesSinceFlush >= 1000000 || e.due {
        bytesSinceFlush := 0;
        if e.dropFlag && fileLength >= 3 * MIB {
          var total: u32 := (fileLength - fileLength % MIB) - MIB;
          var more: u32 := (total - droppedMemLength) % TWO32;
          if more >= 2 * MIB {
            advice := Some(Range(droppedMemLength, more));
            droppedMemLength := total;
          }
        }
      }
    }
  }

  // ----- every run

  /** The state with its history since the counters were last reset: the advised ranges; and for the open file,
      the count it started from and the bytes accounted to it. */
  datatype Machine = Machine(core: Core, advised: seq<Range>, carry: nat, bytes: nat)

  datatype Op = Call(env: Env) | Flush | Rename | OtherStops(stop: bool)

  const START: Machine := Machine(FRESH, [], 0, 0)

  /** Bytes a call accounts to the file: the header if it creates one, the message if it writes it. */
  function Accounted(c: Core, e: Env): (n: nat) {
    var r := Write(c, e);
    (if r.created then e.header else 0) + (if Writes(c, e) then e.message else 0)
  }

  /** The call reaches the message write and counts it. */
  predicate Writes(c: Core, e: Env) {
    !e.unnamed && var (o, _) := Opened(Rolled(c, e), e); o.open && !o.stop && !e.diskFull
  }

  function Apply(m: Machine, op: Op): (r: Machine) {
    match op
    case Flush => m.(core := FlushedNow(m.core))
    case Rename => m.(core := Renamed(m.core))
    case OtherStops(b) => m.(core := m.core.(stop := b))
    case Call(e) =>
      var w := Write(m.core, e);
      var kept := if !e.unnamed && RollsOver(m.core, e) then [] else m.advised;
      var base := Rolled(m.core, e).length;
      Machine(w.core, kept + (if w.advice.Some? then [w.advice.value] else []),
              if w.created then base else m.carry,
              (if w.created then 0 else m.bytes) + Accounted(m.core, e))
  }

  /** No addition of this call leaves 32 bits. */
  ghost predicate Exact(c: Core, e: Env) {
    Rolled(c, e).length + Accounted(c, e) < TWO32
  }

  /** The advised ranges tile the file from its start, each at least two MiB. */
  ghost predicate Tiles(advised: seq<Range>, end: nat) {
    if advised == [] then end == 0
    else
      var Range(start, n) := advised[|advised| - 1];
      n >= 2 * MIB && start + n == end && Tiles(advised[..|advised| - 1], start)
  }

  ghost predicate Inv(m: Machine) {
    var c := m.core;
    && c.attempt < ATTEMPTS
    && c.sinceFlush <= c.length
    && c.dropped % MIB == 0 && (c.dropped > 0 ==> c.dropped + MIB <= c.length)
    && Tiles(m.advised, c.dropped)
    && (c.open ==> c.length == m.carry + m.bytes)
  }

  /** What the call accounts stays within what the size limit in force leaves of 32 bits. */
  predicate Fits(c: Core, op: Op) {
    op.Call? ==> Accounted(c, op.env) <= Room(op.env.sizeFlag)
  }

  /** The room above the limit: one MiB under the largest flag, almost all of 4 GiB under the smallest. */
  function Room(flag: u32): (r: nat)
    ensures MIB <= r
  {
    TWO32 - MaxLogSize(flag) * MIB
  }

  lemma {:induction false} AddExact(a: u32, b: nat)
    requires a + b < TWO32
    ensures Add(a, b) == a + b
  {
  }

  /** The length check leaves that room, whatever the state. */
  lemma {:induction false} RoomLeft(c: Core, e: Env)
    requires Accounted(c, e) <= Room(e.sizeFlag)
    ensures Exact(c, e) && Rolled(c, e).length < MaxLogSize(e.sizeFlag) * MIB
  {
  }

  lemma {:induction false} DropStep(c: Core, advised: seq<Range>)
    requires c.dropped % MIB == 0 && (c.dropped > 0 ==> c.dropped + MIB <= c.length) && Tiles(advised, c.dropped)
    requires DropAdvice(c).Some?
    ensures var total := (c.length - c.length % MIB) - MIB;
            && total % MIB == 0 && 0 < total && total + MIB <= c.length
            && Tiles(advised + [DropAdvice(c).value], total)
  {
  }

  lemma {:induction false} AccountedParts(c: Core, e: Env)
    requires !e.unnamed
    ensures var (_, created) := Opened(Rolled(c, e), e);
            Accounted(c, e) == (if created then e.header else 0) + (if Writes(c, e) then e.message else 0)
  {
  }

  lemma {:induction false} InvOpened(m: Machine, e: Env)
    requires Inv(m) && Exact(m.core, e) && !e.unnamed
    ensures var c := Rolled(m.core, e); var (o, created) := Opened(c, e);
            Inv(Machine(o, if RollsOver(m.core, e) then [] else m.advised, if created then c.length else m.carry,
                        if created then e.header else m.bytes))
  {
    AccountedParts(m.core, e);
    var c := Rolled(m.core, e);
    if Opened(c, e).1 {
      AddExact(c.length, e.header);
      AddExact(c.sinceFlush, e.header);
    }
    assert c.attempt < ATTEMPTS;
    hide Add;
    AddExact(c.attempt, 1);
  }

  lemma {:induction false} InvFlushed(m: Machine, e: Env)
    requires Inv(m)
    ensures var (f, advice) := Flushed(m.core, e);
            Inv(m.(core := f, advised := m.advised + if advice.Some? then [advice.value] else []))
  {
    hide DropAdvice;
    assert m.advised + [] == m.advised;
    var f := m.core.(sinceFlush := 0);
    if DropAdvice(f).Some? {
      DropStep(f, m.advised);
    }
  }

  lemma {:induction false} InvWrite(m: Machine, e: Env)
    requires Inv(m) && Exact(m.core, e)
    ensures Inv(Apply(m, Call(e)))
  {
    if e.unnamed {
      assert m.advised + [] == m.advised;
      return;
    }
    InvOpened(m, e);
    hide Rolled, Opened, Flushed, RollsOver, Tiles, Add;
    var c, kept := Rolled(m.core, e), if RollsOver(m.core, e) then [] else m.advised;
    var (o, created) := Opened(c, e);
    var carry, bytes := if created then c.length else m.carry, if created then e.header else m.bytes;
    AccountedParts(m.core, e);
    OpenedLength(c, e);
    assert kept + [] == kept;
    if Writes(m.core, e) {
      AddExact(o.length, e.message);
      AddExact(o.sinceFlush, e.message);
      var w := o.(length := Add(o.length, e.message), sinceFlush := Add(o.sinceFlush, e.message));
      InvFlushed(Machine(w, kept, carry, bytes + e.message), e);
    }
  }

  lemma {:induction false} OpenedLength(c: Core, e: Env)
    requires Opened(c, e).1 ==> c.length + e.header < TWO32
    ensures var (o, created) := Opened(c, e);
            o.length == c.length + (if created then e.header else 0) && (created ==> o.open) && (c.open ==> !created)
  {
  }

  ghost predicate IsRun(run: seq<Machine>, ops: seq<Op>) {
    && |run| == |ops| + 1 && run[0] == START
    && forall i :: 0 <= i < |ops| ==> run[i + 1] == Apply(run[i], ops[i])
  }

  lemma {:induction false} InvRun(run: seq<Machine>, ops: seq<Op>, k: nat)
    requires IsRun(run, ops) && k < |run| && forall i :: 0 <= i < k ==> Fits(run[i].core, ops[i])
    ensures Inv(run[k])
  {
    if k > 0 {
      InvRun(run, ops, k - 1);
      if ops[k - 1].Call? {
        RoomLeft(run[k - 1].core, ops[k - 1].env);
        InvWrite(run[k - 1], ops[k - 1].env);
      }
    }
  }

  /** The call's length is not the old one plus what it accounted. */
  ghost predicate Wraps(c: Core, e: Env) {
    !e.unnamed && Write(c, e).core.length != Rolled(c, e).length + Accounted(c, e)
  }

  lemma {:induction false} ExactDoesNotWrap(c: Core, e: Env)
    requires Exact(c, e)
    ensures !Wraps(c, e)
  {
    if e.unnamed {
      return;
    }
    var r := Rolled(c, e);
    var (o, _) := Opened(r, e);
    AccountedParts(c, e);
    OpenedLength(r, e);
    if Writes(c, e) {
      AddExact(o.length, e.message);
    }
    hide Opened, Rolled, Flushed, Add;
    FlushedLength(o.(length := Add(o.length, e.message), sinceFlush := Add(o.sinceFlush, e.message)), e);
  }

  /** In every state of every run whose records fit, under any flags, forks, failures, flushes and renames: the
      next fitting call does not wrap the length, the unflushed count is within it, and since the last reset
      the advised ranges are contiguous from offset zero, disjoint, at least two MiB each, and leave at
      least the last MiB. */
  lemma {:induction false} AccountingSafe(run: seq<Machine>, ops: seq<Op>, k: nat)
    requires IsRun(run, ops) && k < |run| && forall i :: 0 <= i < k ==> Fits(run[i].core, ops[i])
    ensures var c, a := run[k].core, run[k].advised;
            && (k < |ops| && ops[k].Call? && Fits(c, ops[k]) ==> !Wraps(c, ops[k].env))
            && c.sinceFlush <= c.length
            && (a != [] ==> a[0].start == 0)
            && (forall i :: 0 <= i < |a| ==> a[i].len >= 2 * MIB)
            && (forall i :: 0 <= i < |a| - 1 ==> a[i].start + a[i].len == a[i + 1].start)
            && (a != [] ==> a[|a| - 1].start + a[|a| - 1].len + MIB <= c.length)
  {
    InvRun(run, ops, k);
    TilesShape(run[k].advised, run[k].core.dropped);
    hide Wraps, Exact;
    if k < |ops| && ops[k].Call? && Fits(run[k].core, ops[k]) {
      RoomLeft(run[k].core, ops[k].env);
      ExactDoesNotWrap(run[k].core, ops[k].env);
    }
  }

  lemma {:induction false} TilesShape(a: seq<Range>, end: nat)
    requires Tiles(a, end)
    ensures a != [] ==> a[0].start == 0 && a[|a| - 1].start + a[|a| - 1].len == end && end > 0
    ensures forall i :: 0 <= i < |a| ==> a[i].len >= 2 * MIB
    ensures forall i :: 0 <= i < |a| - 1 ==> a[i].start + a[i].len == a[i + 1].start
    decreases |a|
  {
    if a != [] {
      var init := a[..|a| - 1];
      TilesShape(init, a[|a| - 1].start);
      assert forall i :: 0 <= i < |init| ==> a[i] == init[i];
    }
  }

  // ----- starting over, flushing and dropping

  /** Without a fork, a call starts over iff the length has reached the flag's number of MiB, or one MiB if the flag
      is not between 1 and 4095. */
  lemma {:induction false} StartsOverIff(c: Core, e: Env)
    requires !e.forked
    ensures RollsOver(c, e)
       <==> if 1 <= e.sizeFlag <= 4095 then c.length >= e.sizeFlag * 0x10_0000 else c.length >= 0x10_0000
  {
  }

  /** What a named call leaves, said of the state before it. It has a file if one was open and it does not start over,
      or if its attempt falls due and one can be created. It counts the header of a file it creates, and its
      message if it has a file, writing is not stopped and the disk is not full. A full disk stops writing and
      the deadline lets it go on. */
  lemma {:induction false} CallEffect(c: Core, e: Env)
    requires !e.unnamed && c.attempt < 32
    ensures var r := Write(c, e);
            var over := RollsOver(c, e);
            var kept := c.open && !over;
            var due := !kept && (over || c.attempt == 31);
            var has := kept || (due && e.creatable);
            && r.created == (due && e.creatable) && r.core.open == has
            && r.core.length == ((if over then 0 else c.length) + (if r.created then e.header else 0)
                                 + (if has && !c.stop && !e.diskFull then e.message else 0)) % 0x1_0000_0000
            && r.core.stop == (if !has then c.stop else if c.stop then !e.due else e.diskFull)
            && r.core.attempt == (if kept then c.attempt else if due then 0 else c.attempt + 1)
            && (Writes(c, e) <==> has && !c.stop && !e.diskFull)
  {
    hide DropAdvice;
    var r := Rolled(c, e);
    var (o, created) := Opened(r, e);
    AddTwice(r.length, if created then e.header else 0, if Writes(c, e) then e.message else 0);
    FlushedKeepsAttempt(e);
  }

  lemma {:induction false} AddTwice(a: u32, b: nat, n: nat)
    ensures Add(Add(a, b), n) == (a + b + n) % 0x1_0000_0000 && Add(a, 0) == a
  {
  }

  /** The bytes accounted since the last flush or start-over, from the history alone. A call that counts its message
      flushes iff it is told to, the deadline has passed, or they have come to a million. */
  ghost function Unflushed(run: seq<Machine>, ops: seq<Op>, k: nat): (n: nat)
    requires k <= |ops| <= |run|
  {
    if k == 0 then 0
    else
      var before, c := Unflushed(run, ops, k - 1), run[k - 1].core;
      match ops[k - 1]
      case Flush => if c.open then 0 else before
      case Call(e) =>
        var n := (if !e.unnamed && RollsOver(c, e) then 0 else before) + Accounted(c, e);
        if Writes(c, e) && (e.force || e.due || n >= 1_000_000) then 0 else n
      case _ => before
  }

  /** In every state of every fitting run the flush counter is just that. */
  lemma {:induction false} FlushCounter(run: seq<Machine>, ops: seq<Op>, k: nat)
    requires IsRun(run, ops) && k < |run| && forall i :: 0 <= i < k ==> Fits(run[i].core, ops[i])
    ensures run[k].core.sinceFlush == Unflushed(run, ops, k)
  {
    if k > 0 {
      FlushCounter(run, ops, k - 1);
      InvRun(run, ops, k - 1);
      assert run[k - 1 + 1] == Apply(run[k - 1], ops[k - 1]);
      FlushStep(run[k - 1], ops[k - 1]);
      hide Apply, Accounted, Writes, RollsOver, Inv, Fits;
    }
  }

  lemma {:induction false} FlushStep(m: Machine, op: Op)
    requires Inv(m) && Fits(m.core, op)
    ensures var c, r := m.core, Apply(m, op).core;
            match op
            case Flush => r.sinceFlush == if c.open then 0 else c.sinceFlush
            case Call(e) =>
              var n := (if !e.unnamed && RollsOver(c, e) then 0 else c.sinceFlush) + Accounted(c, e);
              r.sinceFlush == if Writes(c, e) && (e.force || e.due || n >= 1_000_000) then 0 else n
            case _ => r.sinceFlush == c.sinceFlush
  {
    if op.Call? && !op.env.unnamed {
      RoomLeft(m.core, op.env);
      CallFlush(m.core, op.env);
    }
  }

  lemma {:induction false} CallFlush(c: Core, e: Env)
    requires !e.unnamed && Exact(c, e) && c.sinceFlush <= c.length
    ensures var n := (if RollsOver(c, e) then 0 else c.sinceFlush) + Accounted(c, e);
            Write(c, e).core.sinceFlush == if Writes(c, e) && (e.force || e.due || n >= 1_000_000) then 0 else n
  {
    var r := Rolled(c, e);
    var (o, created) := Opened(r, e);
    AccountedParts(c, e);
    OpenedLength(r, e);
    if created {
      AddExact(r.sinceFlush, e.header);
    }
    if Writes(c, e) {
      AddExact(o.sinceFlush, e.message);
    }
    hide Add, DropAdvice;
  }

  /** Where the last advised range ends, or the start of the file. */
  function DropEnd(advised: seq<Range>): (n: nat) {
    if advised == [] then 0 else advised[|advised| - 1].start + advised[|advised| - 1].len
  }

  /** When the kernel is advised, over every fitting run: a call that counts its message and flushes with the drop flag
      set advises exactly when at least three MiB lie behind the last advised range; it then drops up to
      where at least one and less than two MiB remain, so less than three MiB ever remain after such a
      call. No other call advises. */
  lemma {:induction false} AdviceIff(run: seq<Machine>, ops: seq<Op>, k: nat)
    requires IsRun(run, ops) && k < |ops| && ops[k].Call? && forall i :: 0 <= i <= k ==> Fits(run[i].core, ops[i])
    ensures var c, e, after := run[k].core, ops[k].env, run[k + 1];
            var kept := if !e.unnamed && RollsOver(c, e) then [] else run[k].advised;
            var n := (if !e.unnamed && RollsOver(c, e) then 0 else Unflushed(run, ops, k)) + Accounted(c, e);
            var drops := Writes(c, e) && (e.force || e.due || n >= 1_000_000) && e.dropFlag;
            && (after.advised != kept <==> drops && after.core.length - DropEnd(kept) >= 0x30_0000)
            && (after.advised != kept ==>
                  && after.advised[..|after.advised| - 1] == kept
                  && 0x10_0000 <= after.core.length - DropEnd(after.advised) < 0x20_0000)
            && (drops ==> after.core.length - DropEnd(after.advised) < 0x30_0000)
  {
    InvRun(run, ops, k);
    FlushCounter(run, ops, k);
    RoomLeft(run[k].core, ops[k].env);
    AdviceStep(run[k], ops[k].env);
    assert run[k + 1] == Apply(run[k], ops[k]);
    hide Apply, Accounted, Writes, RollsOver, Inv, Fits, Unflushed;
  }

  lemma {:induction false} AdviceStep(m: Machine, e: Env)
    requires Inv(m) && Exact(m.core, e)
    ensures var c, after := m.core, Apply(m, Call(e));
            var kept := if !e.unnamed && RollsOver(c, e) then [] else m.advised;
            var n := (if !e.unnamed && RollsOver(c, e) then 0 else c.sinceFlush) + Accounted(c, e);
            var drops := Writes(c, e) && (e.force || e.due || n >= 1_000_000) && e.dropFlag;
            && (after.advised != kept <==> drops && after.core.length - DropEnd(kept) >= 0x30_0000)
            && (after.advised != kept ==>
                  && after.advised[..|after.advised| - 1] == kept
                  && 0x10_0000 <= after.core.length - DropEnd(after.advised) < 0x20_0000)
            && (drops ==> after.core.length - DropEnd(after.advised) < 0x30_0000)
  {
    var kept := if !e.unnamed && RollsOver(m.core, e) then [] else m.advised;
    assert kept + [] == kept;
    if e.unnamed || !Writes(m.core, e) {
      return;
    }
    InvOpened(m, e);
    var c := Rolled(m.core, e);
    var (o, created) := Opened(c, e);
    AccountedParts(m.core, e);
    OpenedLength(c, e);
    if created {
      AddExact(c.sinceFlush, e.header);
    }
    AddExact(o.length, e.message);
    AddExact(o.sinceFlush, e.message);
    var w := o.(length := Add(o.length, e.message), sinceFlush := Add(o.sinceFlush, e.message));
    DropEndIs(kept, w.dropped);
    hide Add, Rolled, Opened, Accounted, RollsOver, Tiles;
    FlushAdvice(w, e, kept);
    var advice := Flushed(w, e).1;
    if advice.Some? {
      assert (kept + [advice.value])[..|kept|] == kept;
    }
  }

  lemma {:induction false} DropEndIs(advised: seq<Range>, end: nat)
    requires Tiles(advised, end)
    ensures DropEnd(advised) == end
  {
  }

  lemma {:induction false} FlushAdvice(c: Core, e: Env, kept: seq<Range>)
    requires c.dropped % MIB == 0 && (c.dropped > 0 ==> c.dropped + MIB <= c.length) && DropEnd(kept) == c.dropped
    ensures var (f, advice) := Flushed(c, e);
            var flushes := e.force || e.due || c.sinceFlush >= 1_000_000;
            && f.length == c.length
            && (advice.Some? <==> flushes && e.dropFlag && c.length - c.dropped >= 0x30_0000)
            && (advice.Some? ==> 0x10_0000 <= c.length - DropEnd(kept + [advice.value]) < 0x20_0000)
  {
    AdviceArithmetic(c.length, c.dropped);
  }

  lemma {:induction false} AdviceArithmetic(length: u32, dropped: u32)
    requires dropped % MIB == 0 && (dropped > 0 ==> dropped + MIB <= length)
    ensures length >= 0x30_0000 ==>
              var total := (length - length % MIB) - MIB;
              && 0 <= total - dropped < TWO32 && (total - dropped) % TWO32 == total - dropped
              && (total - dropped >= 2 * MIB <==> length - dropped >= 0x30_0000)
              && 0x10_0000 <= length - total < 0x20_0000
  {
  }

  // ----- the exact bound

  /** A named call that finds or creates the file, forces a flush and writes `n` bytes; a new file would get a
      header of `h`. */
  function Plain(flag: u32, h: nat, n: nat): (r: Op) {
    Call(Env(false, flag, false, true, h, n, false, true, false, false))
  }

  /** A machine whose open file holds `n` bytes, all flushed. */
  function Holding(n: u32): (r: Machine) {
    Machine(Core(true, n, 0, 0, 0, false), [], 0, n)
  }

  lemma {:induction false} PlainStep(flag: u32, h: nat, n: u32, more: nat)
    requires n / MIB < MaxLogSize(flag) && n + more < TWO32
    ensures Apply(Holding(n), Plain(flag, h, more)) == Holding(n + more)
    ensures Accounted(Holding(n).core, Plain(flag, h, more).env) == more
  {
    AddExact(n, more);
    AddExact(0, more);
    hide Add;
  }

  lemma {:induction false} PlainFirst(flag: u32, h: nat, n: nat)
    requires h + n < TWO32
    ensures Apply(START, Plain(flag, h, n)) == Holding(h + n)
    ensures Accounted(START.core, Plain(flag, h, n).env) == h + n
  {
    AddExact(0, h);
    AddExact(h, n);
    AddExact(31, 1);
    hide Add;
  }

  lemma {:induction false} RunSnoc(run: seq<Machine>, ops: seq<Op>, op: Op)
    requires IsRun(run, ops)
    ensures IsRun(run + [Apply(run[|ops|], op)], ops + [op])
  {
    hide Apply;
    var r, o := run + [Apply(run[|ops|], op)], ops + [op];
    forall i | 0 <= i < |o| ensures r[i + 1] == Apply(r[i], o[i]) {
      if i < |ops| {
        assert run[i + 1] == Apply(run[i], ops[i]);
      }
    }
  }

  predicate Within(c: Core, op: Op, flag: u32, b: nat) {
    op.Call? ==> op.env.sizeFlag == flag && Accounted(c, op.env) <= b
  }

  ghost predicate AllWithin(run: seq<Machine>, ops: seq<Op>, k: nat, flag: u32, b: nat) {
    k <= |ops| <= |run| && forall i :: 0 <= i < k ==> Within(run[i].core, ops[i], flag, b)
  }

  /** Calls of one MiB each, one byte short at first and with the header in the first of them, fill the file to one
      byte below any limit. */
  lemma {:induction false} FillRun(flag: u32, h: nat, n: nat) returns (run: seq<Machine>, ops: seq<Op>)
    requires 1 <= n <= MaxLogSize(flag) && h < MIB
    ensures IsRun(run, ops) && |ops| == n && run[n] == Holding(n * MIB - 1)
    ensures forall i :: 0 <= i < n ==> ops[i] == Plain(flag, h, if i == 0 then MIB - 1 - h else MIB)
    ensures AllWithin(run, ops, n, flag, MIB)
  {
    hide Apply, Accounted;
    if n == 1 {
      ops := [Plain(flag, h, MIB - 1 - h)];
      run := [START, Holding(MIB - 1)];
      PlainFirst(flag, h, MIB - 1 - h);
    } else {
      var r, o := FillRun(flag, h, n - 1);
      PlainStep(flag, h, (n - 1) * MIB - 1, MIB);
      RunSnoc(r, o, Plain(flag, h, MIB));
      ops := o + [Plain(flag, h, MIB)];
      run := r + [Holding(n * MIB - 1)];
      WithinSnoc(r, o, run, ops, flag, MIB);
    }
  }

  lemma {:induction false} WithinSnoc(r: seq<Machine>, o: seq<Op>, run: seq<Machine>, ops: seq<Op>, flag: u32, b: nat)
    requires r <= run && o <= ops && |ops| == |o| + 1 && |run| == |r| + 1 == |ops| + 1 && AllWithin(r, o, |o|, flag, b)
    requires Within(run[|o|].core, ops[|o|], flag, b)
    ensures AllWithin(run, ops, |ops|, flag, b)
  {
    hide Within;
    assert forall i :: 0 <= i < |o| ==> Within(r[i].core, o[i], flag, b);
    assert forall i :: 0 <= i < |o| ==> run[i] == r[i] && ops[i] == o[i];
  }

  /** A run under the given flag, with a header of the given size, whose last call, one byte beyond the room, brings
      the length back to zero. */
  lemma {:induction false} OneByteMoreWraps(flag: u32, h: nat) returns (run: seq<Machine>, ops: seq<Op>, k: nat)
    requires h < MIB
    ensures IsRun(run, ops) && k + 1 == |ops| && ops[k].Call?
    ensures forall i :: 0 <= i <= k ==> ops[i].Call? && ops[i].env.header == h
    ensures AllWithin(run, ops, k, flag, MIB) && Within(run[k].core, ops[k], flag, Room(flag) + 1)
    ensures Wraps(run[k].core, ops[k].env) && run[k + 1].core.length == 0
  {
    k := MaxLogSize(flag);
    var r, o := FillRun(flag, h, k);
    var last := Plain(flag, h, Room(flag) + 1);
    RunSnoc(r, o, last);
    ops, run := o + [last], r + [Apply(r[k], last)];
    LastWraps(flag, h);
    hide IsRun, Write, Wraps, Accounted, Within;
    assert forall i :: 0 <= i < k ==> Within(r[i].core, o[i], flag, MIB);
    assert forall i :: 0 <= i < k ==> run[i] == r[i] && ops[i] == o[i];
  }

  lemma {:induction false} LastWraps(flag: u32, h: nat)
    ensures var c, op := Holding(MaxLogSize(flag) * MIB - 1).core, Plain(flag, h, Room(flag) + 1);
            && Wraps(c, op.env) && Write(c, op.env).core.length == 0
            && Within(c, op, flag, Room(flag) + 1)
  {
  }

  /** For every flag, exactly the record sizes up to 2^32 - MaxLogSize MiB are safe: no run whose calls account at
      most `b` bytes each wraps the length iff `b` is within that. */
  lemma {:induction false} ExactBound(flag: u32, b: nat)
    ensures (forall run: seq<Machine>, ops: seq<Op>, k: nat ::
               IsRun(run, ops) && k < |ops| && ops[k].Call? && AllWithin(run, ops, k + 1, flag, b)
               ==> !Wraps(run[k].core, ops[k].env))
       <==> b <= Room(flag)
  {
    hide IsRun, Wraps, Exact, Accounted;
    if b <= Room(flag) {
      forall run: seq<Machine>, ops: seq<Op>, k: nat |
        IsRun(run, ops) && k < |ops| && ops[k].Call? && AllWithin(run, ops, k + 1, flag, b)
        ensures k < |run| && !Wraps(run[k].core, ops[k].env)
      {
        RunLength(run, ops);
        assert Within(run[k].core, ops[k], flag, b);
        RoomLeft(run[k].core, ops[k].env);
        ExactDoesNotWrap(run[k].core, ops[k].env);
      }
    } else {
      var run, ops, k := OneByteMoreWraps(flag, 1);
      RunLength(run, ops);
      assert forall i :: 0 <= i < k ==> Within(run[i].core, ops[i], flag, MIB);
      assert AllWithin(run, ops, k + 1, flag, b);
    }
  }

  lemma {:induction false} RunLength(run: seq<Machine>, ops: seq<Op>)
    requires IsRun(run, ops)
    ensures |run| == |ops| + 1
  {
  }

  // ----- the counter and the file

  /** As long as no rename closed the file, the counter is the number of bytes accounted to the open file. */
  lemma {:induction false} CounterIsFileLength(run: seq<Machine>, ops: seq<Op>, k: nat)
    requires IsRun(run, ops) && k < |run|
    requires forall i :: 0 <= i < k ==> Fits(run[i].core, ops[i]) && !ops[i].Rename?
    ensures run[k].core.open ==> run[k].carry == 0 && run[k].core.length == run[k].bytes
    ensures !run[k].core.open ==> run[k].core.length == 0
  {
    hide Apply, Inv;
    InvRun(run, ops, k);
    InvCount(run[k]);
    if k > 0 {
      CounterIsFileLength(run, ops, k - 1);
      NoCarryStep(run[k - 1], ops[k - 1]);
    }
  }

  lemma {:induction false} InvCount(m: Machine)
    requires Inv(m)
    ensures m.core.open ==> m.core.length == m.carry + m.bytes
  {
  }

  lemma {:induction false} NoCarryStep(m: Machine, op: Op)
    requires !op.Rename? && if m.core.open then m.carry == 0 else m.core.length == 0
    ensures var r := Apply(m, op); if r.core.open then r.carry == 0 else r.core.length == 0
  {
  }

  /** Some call from `i` on and before `j` starts over. */
  ghost predicate RolledSince(run: seq<Machine>, ops: seq<Op>, i: nat, j: nat)
    requires j <= |ops| <= |run|
  {
    exists k :: i <= k < j && ops[k].Call? && !ops[k].env.unnamed && RollsOver(run[k].core, ops[k].env)
  }

  /** A closed file keeps its length until a call starts over. */
  lemma {:induction false} ClosedLength(run: seq<Machine>, ops: seq<Op>, i: nat, j: nat)
    requires IsRun(run, ops) && i <= j < |run| && forall k :: i <= k <= j ==> !run[k].core.open
    ensures run[j].core.length == if RolledSince(run, ops, i, j) then 0 else run[i].core.length
    decreases j
  {
    if i < j {
      ClosedLength(run, ops, i, j - 1);
      hide Apply, RollsOver;
      assert run[j - 1 + 1] == Apply(run[j - 1], ops[j - 1]);
      ClosedStep(run[j - 1], ops[j - 1]);
    }
  }

  lemma {:induction false} ClosedStep(m: Machine, op: Op)
    requires !m.core.open && !Apply(m, op).core.open
    ensures Apply(m, op).core.length
         == if op.Call? && !op.env.unnamed && RollsOver(m.core, op.env) then 0 else m.core.length
  {
  }

  /** A rename closes the file but keeps the counters, so the next file is counted from the old length: over every
      run, when the next file is created its counter is its length exactly when the old length was zero or
      some call since, that one included, started over because of the limit or a fork. */
  lemma {:induction false} RenameCarries(run: seq<Machine>, ops: seq<Op>, i: nat, k: nat)
    requires IsRun(run, ops) && i < k < |ops| && forall j :: 0 <= j <= k ==> Fits(run[j].core, ops[j])
    requires ops[i].Rename? && run[i].core.open && forall j :: i < j <= k ==> !run[j].core.open
    requires ops[k].Call? && Write(run[k].core, ops[k].env).created
    ensures run[k + 1].core.open
    ensures run[k + 1].core.length == run[k + 1].bytes
       <==> run[i].core.length == 0 || RolledSince(run, ops, i + 1, k + 1)
  {
    InvRun(run, ops, k + 1);
    InvCount(run[k + 1]);
    ClosedLength(run, ops, i + 1, k);
    CreatedCarry(run[k], ops[k].env);
    hide Inv, RollsOver, Rolled, Write;
    assert run[i + 1] == Apply(run[i], ops[i]) && run[k + 1] == Apply(run[k], ops[k]);
    assert run[i + 1].core.length == run[i].core.length;
  }

  lemma {:induction false} CreatedCarry(m: Machine, e: Env)
    requires Write(m.core, e).created
    ensures var r := Apply(m, Call(e));
            r.core.open && !e.unnamed && r.carry == if RollsOver(m.core, e) then 0 else m.core.length
  {
  }

  /** A run that ends with a wrong counter: ten bytes, a rename, and five bytes counted as fifteen. */
  lemma {:induction false} RenameExample(flag: u32) returns (run: seq<Machine>, ops: seq<Op>)
    ensures IsRun(run, ops) && ops == [Plain(flag, 4, 6), Rename, Plain(flag, 2, 3)]
    ensures run[3].core.open && run[3].core.length == 15 && run[3].bytes == 5
  {
    PlainFirst(flag, 4, 6);
    var m1 := Holding(10);
    var m2 := Apply(m1, Rename);
    AddExact(10, 2);
    AddExact(12, 3);
    AddExact(31, 1);
    AfterRename(flag);
    ops := [Plain(flag, 4, 6), Rename, Plain(flag, 2, 3)];
    run := [START, m1, m2, Apply(m2, ops[2])];
  }

  lemma {:induction false} AfterRename(flag: u32)
    ensures var r := Apply(Apply(Holding(10), Rename), Plain(flag, 2, 3));
            r.core.open && r.core.length == 15 && r.bytes == 5
  {
  }

  /** In every state of every run under one flag whose calls account at most `b` bytes each, the length exceeds the
      limit by less than that; and a call that counts its message leaves fewer than 10^6 bytes unflushed. */
  lemma {:induction false} WriteBounds(run: seq<Machine>, ops: seq<Op>, k: nat, flag: u32, b: nat)
    requires IsRun(run, ops) && k < |run| && b <= Room(flag) && AllWithin(run, ops, k, flag, b)
    ensures run[k].core.length <= MaxLogSize(flag) * MIB - 1 + b
    ensures k > 0 && ops[k - 1].Call? && Writes(run[k - 1].core, ops[k - 1].env) ==> run[k].core.sinceFlush < 1000000
  {
    hide Accounted;
    if k > 0 {
      assert forall i :: 0 <= i < k ==> Within(run[i].core, ops[i], flag, b);
      WriteBounds(run, ops, k - 1, flag, b);
      LengthStep(run[k - 1], ops[k - 1], flag, b);
    }
  }

  lemma {:induction false} LengthStep(m: Machine, op: Op, flag: u32, b: nat)
    requires b <= Room(flag) && Within(m.core, op, flag, b) && m.core.length <= MaxLogSize(flag) * MIB - 1 + b
    ensures Apply(m, op).core.length <= MaxLogSize(flag) * MIB - 1 + b
    ensures op.Call? && Writes(m.core, op.env) ==> Apply(m, op).core.sinceFlush < 1000000
  {
    if op.Call? && !op.env.unnamed {
      RoomLeft(m.core, op.env);
      ExactDoesNotWrap(m.core, op.env);
      WrittenFlushes(m.core, op.env);
      hide Write, Rolled, Accounted, Writes;
    }
  }

  lemma {:induction false} WrittenFlushes(c: Core, e: Env)
    ensures Writes(c, e) ==> Write(c, e).core.sinceFlush < 1000000
  {
    hide Opened, Rolled, Flushed, Add;
    var (o, _) := Opened(Rolled(c, e), e);
    FlushedLength(o.(length := Add(o.length, e.message), sinceFlush := Add(o.sinceFlush, e.message)), e);
  }

  lemma {:induction false} FlushedLength(c: Core, e: Env)
    ensures Flushed(c, e).0.length == c.length && Flushed(c, e).0.sinceFlush < 1000000
  {
  }

  // ----- attempts to create a file

  /** The call tries to create a file. */
  predicate Tries(c: Core, e: Env) {
    !e.unnamed && !Rolled(c, e).open && Add(Rolled(c, e).attempt, 1) == ATTEMPTS
  }

  /** The calls with a base name among the operations from `i` to `j`. */
  function NamedCalls(ops: seq<Op>, i: nat, j: nat): (n: nat)
    requires i <= j <= |ops|
    decreases j - i
  {
    if i == j then 0 else NamedCalls(ops, i, j - 1) + if ops[j - 1].Call? && !ops[j - 1].env.unnamed then 1 else 0
  }

  /** The attempts among them. */
  function Attempts(run: seq<Machine>, ops: seq<Op>, i: nat, j: nat): (n: nat)
    requires i <= j <= |ops| <= |run|
    decreases j - i
  {
    if i == j then 0
    else Attempts(run, ops, i, j - 1) + if ops[j - 1].Call? && Tries(run[j - 1].core, ops[j - 1].env) then 1 else 0
  }

  lemma {:induction false} AttemptBound(run: seq<Machine>, ops: seq<Op>, k: nat)
    requires IsRun(run, ops) && k < |run|
    ensures run[k].core.attempt < ATTEMPTS
  {
    if k > 0 {
      AttemptBound(run, ops, k - 1);
      AttemptStep(run[k - 1], ops[k - 1]);
    }
  }

  lemma {:induction false} AttemptStep(m: Machine, op: Op)
    requires m.core.attempt < ATTEMPTS
    ensures Apply(m, op).core.attempt < ATTEMPTS
    ensures !m.core.open && (op.Call? && !op.env.unnamed ==> !RollsOver(m.core, op.env)) ==>
              Apply(m, op).core.attempt
              == if op.Call? && !op.env.unnamed then (m.core.attempt + 1) % ATTEMPTS else m.core.attempt
    ensures !m.core.open && op.Call? && !op.env.unnamed && !RollsOver(m.core, op.env) ==>
              (Tries(m.core, op.env) <==> m.core.attempt == 31)
    ensures op.Call? ==> (Write(m.core, op.env).created <==> Tries(m.core, op.env) && op.env.creatable)
  {
    hide Flushed;
    if op.Call? && !op.env.unnamed {
      FlushedKeepsAttempt(op.env);
    }
  }

  lemma {:induction false} FlushedKeepsAttempt(e: Env)
    ensures forall c: Core :: Flushed(c, e).0.attempt == c.attempt && Flushed(c, e).0.length == c.length
  {
  }

  /** As long as there is no file and nothing rolls over, creation is tried on every 32nd named call: the attempts
      of any stretch of any run are those that the counter and the number of named calls make, so 32 named
      calls contain exactly one. An attempt creates the file iff that is possible, and nothing else does. */
  lemma {:induction false} AttemptsProgress(run: seq<Machine>, ops: seq<Op>, i: nat, j: nat)
    requires IsRun(run, ops) && i <= j <= |ops|
    requires forall k :: i <= k < j ==> !run[k].core.open
    requires forall k :: i <= k < j && ops[k].Call? && !ops[k].env.unnamed ==> !RollsOver(run[k].core, ops[k].env)
    ensures Attempts(run, ops, i, j) == (run[i].core.attempt + NamedCalls(ops, i, j)) / 32
    ensures run[j].core.attempt == (run[i].core.attempt + NamedCalls(ops, i, j)) % 32
    ensures NamedCalls(ops, i, j) == 32 ==> Attempts(run, ops, i, j) == 1
    ensures forall k :: i <= k < j && ops[k].Call? ==>
                          (Write(run[k].core, ops[k].env).created
                           <==> Tries(run[k].core, ops[k].env) && ops[k].env.creatable)
    decreases j - i
  {
    hide Apply, Write, RollsOver, Rolled, Add;
    AttemptBound(run, ops, i);
    if i < j {
      AttemptsProgress(run, ops, i, j - 1);
      AttemptBound(run, ops, j - 1);
      AttemptStep(run[j - 1], ops[j - 1]);
      assert run[j] == Apply(run[j - 1], ops[j - 1]);
      CountUp(run[i].core.attempt + NamedCalls(ops, i, j - 1));
      if ops[j - 1].Call? && ops[j - 1].env.unnamed {
        assert !Tries(run[j - 1].core, ops[j - 1].env);
      }
    }
  }

  lemma {:induction false} CountUp(n: nat)
    ensures (n + 1) / 32 == n / 32 + (if n % 32 == 31 then 1 else 0) && (n + 1) % 32 == (n % 32 + 1) % 32
  {
  }

  // ----- a full disk

  /** The call meets a full disk. */
  predicate MeetsFullDisk(c: Core, e: Env) {
    !e.unnamed && var (o, _) := Opened(Rolled(c, e), e); o.open && !o.stop && e.diskFull
  }

  /** What lets writing go on: another logger, or a call with a file that finds the flush deadline passed. */
  predicate Resumes(c: Core, op: Op) {
    || op == OtherStops(false)
    || (op.Call? && !op.env.unnamed && op.env.due && Opened(Rolled(c, op.env), op.env).0.open)
  }

  lemma {:induction false} StoppedStep(m: Machine, op: Op)
    requires m.core.stop
    ensures Apply(m, op).core.stop <==> !Resumes(m.core, op)
    ensures op.Call? ==>
              && !Writes(m.core, op.env)
              && Accounted(m.core, op.env) == if Write(m.core, op.env).created then op.env.header else 0
  {
  }

  lemma {:induction false} FullDiskStep(m: Machine, e: Env)
    requires MeetsFullDisk(m.core, e)
    ensures Apply(m, Call(e)).core.stop
  {
  }

  /** After a call that met a full disk, and until something lets writing go on, that thing included, no call of
      the run counts its message; all it can count is the header of a file it creates. */
  lemma {:induction false} FullDiskStops(run: seq<Machine>, ops: seq<Op>, i: nat, k: nat)
    requires IsRun(run, ops) && i < k < |ops| && ops[i].Call? && MeetsFullDisk(run[i].core, ops[i].env)
    requires forall j :: i < j < k ==> !Resumes(run[j].core, ops[j])
    ensures run[k].core.stop && (run[k + 1].core.stop <==> !Resumes(run[k].core, ops[k]))
    ensures ops[k].Call? ==>
              var c, e := run[k].core, ops[k].env;
              !Writes(c, e) && Accounted(c, e) == if Write(c, e).created then e.header else 0
    decreases k
  {
    if k == i + 1 {
      FullDiskStep(run[i], ops[i].env);
    } else {
      FullDiskStops(run, ops, i, k - 1);
    }
    StoppedStep(run[k], ops[k]);
  }

  /** Construction, a rename and a rollover all reopen at once: in every run, the first named call after construction
      or after the rename of an open file, and every call that starts over, tries to create the file. */
  lemma {:induction false} ReopensAtOnce(run: seq<Machine>, ops: seq<Op>, i: nat, k: nat)
    requires IsRun(run, ops) && i <= k < |ops| && ops[k].Call? && !ops[k].env.unnamed
    requires RollsOver(run[k].core, ops[k].env)
             || (NamedCalls(ops, i, k) == 0 && (i == 0 || (ops[i - 1].Rename? && run[i - 1].core.open)))
    ensures Tries(run[k].core, ops[k].env)
    ensures Write(run[k].core, ops[k].env).created <==> ops[k].env.creatable
  {
    AttemptBound(run, ops, k);
    AttemptStep(run[k], ops[k]);
    if !RollsOver(run[k].core, ops[k].env) {
      if i > 0 {
        assert run[i] == Apply(run[i - 1], ops[i - 1]);
      }
      QuietClosed(run, ops, i, k);
    }
  }

  /** Without a named call a closed file stays closed and the attempt counter as it is. */
  lemma {:induction false} QuietClosed(run: seq<Machine>, ops: seq<Op>, i: nat, k: nat)
    requires IsRun(run, ops) && i <= k <= |ops| && NamedCalls(ops, i, k) == 0 && !run[i].core.open
    ensures !run[k].core.open && run[k].core.attempt == run[i].core.attempt
    decreases k
  {
    if i < k {
      QuietClosed(run, ops, i, k - 1);
      assert run[k] == Apply(run[k - 1], ops[k - 1]);
    }
  }
}
