/**
  One agent session (can_agent/server/session.cc): a bounded queue filled by the
  producer thread, and a drain / write / timer machine on the network thread that
  empties it in batches of at most eight lines.

  `SessionObject` is the class with its handlers. `Core` is its state as a value and
  the functions on it specify the handlers. The drain loop runs concurrently with the
  producer's pushes, so the transition system at the end takes each pop as a step.
  */
module AgentSession {
  import opened Basics

  const CAPACITY: nat := 2048
  const BATCH: nat := 8

  /** `timers` and `writes` count the operations outstanding with asio; `drain` is the number of
      pops made by a running doCanObjTranspose; `moved` is how much of the current write has left. */
  datatype Core = Core(queue: seq<string>, tx: string, timers: nat, writes: nat,
                       drain: Option<nat>, moved: nat, listening: bool)

  const FRESH: Core := Core([], "", 0, 0, None, 0, false)

  function Push(c: Core, line: string): (r: Core) {
    if |c.queue| < CAPACITY then c.(queue := c.queue + [line]) else c
  }

  predicate CanPop(c: Core) {
    c.drain.Some? && c.drain.value < BATCH && c.queue != []
  }

  function PopOne(c: Core): (r: Core)
    requires CanPop(c)
  {
    c.(queue := c.queue[1..], tx := c.tx + c.queue[0], drain := Some(c.drain.value + 1))
  }

  /** The end of doCanObjTranspose: start a write if there is anything to send, else arm the timer. */
  function Finish(c: Core): (r: Core) {
    if |c.tx| > 0 then c.(drain := None, writes := c.writes + 1) else c.(drain := None, timers := c.timers + 1)
  }

  /** A whole doCanObjTranspose, no push intervening. */
  function RunDrain(c: Core): (r: Core)
    requires c.drain.Some?
    decreases |c.queue|
  {
    if CanPop(c) then RunDrain(PopOne(c)) else Finish(c)
  }

  /** streambuf::consume: at most what is there. */
  function Consumed(s: string, n: nat): (r: string) {
    if n <= |s| then s[n..] else ""
  }

  /** A finished write: asio has consumed the n bytes it wrote from the streambuf, and handleWrite consumes n
      once more, which finds the buffer empty unless the write failed. */
  function AfterWrite(c: Core, failed: bool, n: nat): (r: Core)
    requires c.writes > 0
  {
    var d := c.(tx := Consumed(Consumed(c.tx, n), n), writes := c.writes - 1, moved := 0);
    if failed then d.(listening := false) else d.(drain := Some(0))
  }

  class SessionObject {
    var queue: seq<string>
    var tx: string
    var timers: nat
    var writes: nat
    var listening: bool

    ghost function State(drain: Option<nat>, moved: nat): (c: Core)
      reads this
    {
      Core(queue, tx, timers, writes, drain, moved, listening)
    }

    constructor ()
      ensures State(None, 0) == FRESH && !listening && queue == [] && tx == "" && timers == writes == 0
    {
      queue, tx, timers, writes, listening := [], "", 0, 0, false;
    }

    method Start()
      modifies this
      ensures State(None, 0) == RunDrain(old(State(None, 0)).(listening := true, drain := Some(0)))
    {
      listening := true;
      DoCanObjTranspose();
    }

    method DisconnectToEventqq()
      modifies this`listening
      ensures !listening
    {
      if listening {
        listening := false;
      }
    }

    method ConsumeCanObjHandler(node: string)
      modifies this`queue
      ensures State(None, 0) == Push(old(State(None, 0)), node)
    {
      if |queue| < CAPACITY {
        queue := queue + [node];
      }
    }

    method DoCanObjTranspose()
      modifies this
      ensures State(None, 0) == RunDrain(old(State(Some(0), 0)))
    {
      var i := 0;
      while i < BATCH && queue != []
        invariant 0 <= i <= BATCH
        invariant RunDrain(State(Some(i), 0)) == RunDrain(old(State(Some(0), 0)))
        decreases BATCH - i
      {
        var node := queue[0];
        queue := queue[1..];
        tx := tx + node;
        i := i + 1;
      }
      if |tx| > 0 {
        WriteMessage();
        return;
      }
      timers := timers + 1;
    }

    method WriteMessage()
      modifies this`writes
      ensures writes == old(writes) + 1
    {
      writes := writes + 1;
    }

    method HandleWrite(failed: bool, n: nat)
      requires writes > 0
      modifies this
      ensures var d := AfterWrite(old(State(None, 0)), failed, n);
              State(None, 0) == if failed then d else RunDrain(d)
    {
      writes := writes - 1;
      tx := Consumed(tx, n); // by asio, before it calls the handler
      tx := Consumed(tx, n);
      if failed {
        DisconnectToEventqq();
        return;
      }
      DoCanObjTranspose();
    }
  }

  // ----- the transition system

  function Cat(ls: seq<string>): (r: string) {
    if ls == [] then "" else Cat(ls[..|ls| - 1]) + ls[|ls| - 1]
  }

  lemma {:induction false} CatAppend(ls: seq<string>, x: string)
    ensures Cat(ls + [x]) == Cat(ls) + x
  {
  }

  lemma {:induction false} CatConcat(a: seq<string>, b: seq<string>)
    ensures Cat(a + b) == Cat(a) + Cat(b)
    decreases |b|
  {
    if b == [] {
      assert a + b == a;
    } else {
      var b', x := b[..|b| - 1], b[|b| - 1];
      assert a + b == (a + b') + [x] && b == b' + [x];
      CatConcat(a, b');
      CatAppend(a + b', x);
    }
  }

  /** What was dispatched to the session since start(): each line, how full the queue was when it came,
      and the indices of the lines the queue accepted and of those it dropped. */
  datatype Ledger = Ledger(dispatched: seq<string>, occupancy: seq<nat>, accepted: seq<nat>, dropped: seq<nat>)

  /** The state with its history: the accepted lines written out completely, those in the buffer, everything
      written so far, and whether a write failed. */
  datatype Machine = Machine(core: Core, log: Ledger, done: seq<string>, inTx: seq<string>, sent: string, failed: bool)

  /** The number of lines popped off the queue. */
  function Popped(m: Machine): (n: nat) {
    |m.done| + |m.inTx|
  }

  datatype Step =
    | Dispatch(line: string)
    | Pop
    | EndDrain
    | TimerFires
    | Transfer(k: nat)
    | WriteDone
    | WriteFails

  /** start() has registered the listener and entered doCanObjTranspose. */
  const START: Machine :=
    Machine(FRESH.(listening := true, drain := Some(0)), Ledger([], [], [], []), [], [], "", false)

  predicate Enabled(m: Machine, s: Step) {
    var c := m.core;
    match s
    case Dispatch(line) => c.listening && line != ""
    case Pop => CanPop(c)
    case EndDrain => c.drain.Some? && !CanPop(c)
    case TimerFires => c.timers > 0 && c.drain.None?
    case Transfer(k) => c.writes > 0 && 0 < k <= |c.tx| - c.moved
    case WriteDone => c.writes > 0 && c.drain.None? && c.moved == |c.tx|
    case WriteFails => c.writes > 0 && c.drain.None? && c.moved <= |c.tx|
  }

  function Apply(m: Machine, s: Step): (r: Machine)
    requires Enabled(m, s)
  {
    var c := m.core;
    match s
    case Dispatch(line) =>
      m.(core := Push(c, line), log := Record(m.log, line, |c.queue|))
    case Pop => m.(core := PopOne(c), inTx := m.inTx + [c.queue[0]])
    case EndDrain => m.(core := Finish(c))
    case TimerFires => m.(core := c.(timers := c.timers - 1, drain := Some(0)))
    case Transfer(k) => m.(core := c.(moved := c.moved + k), sent := m.sent + c.tx[c.moved..c.moved + k])
    case WriteDone => m.(core := AfterWrite(c, false, c.moved), done := m.done + m.inTx, inTx := [])
    case WriteFails => m.(core := AfterWrite(c, true, c.moved), failed := true)
  }

  function Record(l: Ledger, line: string, occupied: nat): (r: Ledger) {
    var n := |l.dispatched|;
    var l' := l.(dispatched := l.dispatched + [line], occupancy := l.occupancy + [occupied]);
    if occupied < CAPACITY then l'.(accepted := l.accepted + [n]) else l'.(dropped := l.dropped + [n])
  }

  ghost predicate Increasing(s: seq<nat>) {
    forall i, j :: 0 <= i < j < |s| ==> s[i] < s[j]
  }

  /** Every dispatched line was accepted or dropped, and it was dropped exactly when the queue was full. */
  ghost predicate LedgerOk(l: Ledger) {
    && |l.occupancy| == |l.dispatched| == |l.accepted| + |l.dropped|
    && Increasing(l.accepted) && Increasing(l.dropped)
    && (forall i :: 0 <= i < |l.accepted| ==> l.accepted[i] < |l.dispatched| && l.occupancy[l.accepted[i]] < CAPACITY)
    && (forall i :: 0 <= i < |l.dropped| ==> l.dropped[i] < |l.dispatched| && l.occupancy[l.dropped[i]] == CAPACITY)
    && (forall j :: 0 <= j < |l.dispatched| ==> l.dispatched[j] != "" && (j in l.accepted || j in l.dropped))
  }

  /** The lines the queue accepted, in order. */
  ghost function Taken(l: Ledger): (r: seq<string>)
    requires LedgerOk(l)
    ensures |r| == |l.accepted|
    ensures forall i :: 0 <= i < |r| ==> r[i] == l.dispatched[l.accepted[i]] && r[i] != ""
  {
    seq(|l.accepted|, i requires 0 <= i < |l.accepted| => l.dispatched[l.accepted[i]])
  }

  lemma {:induction false} RecordOk(l: Ledger, line: string, occupied: nat)
    requires LedgerOk(l) && line != "" && occupied <= CAPACITY
    ensures LedgerOk(Record(l, line, occupied))
    ensures Taken(Record(l, line, occupied)) == Taken(l) + (if occupied < CAPACITY then [line] else [])
  {
    var r := Record(l, line, occupied);
    var n := |l.dispatched|;
    if occupied < CAPACITY {
      assert r.accepted[|l.accepted|] == n;
    } else {
      assert r.dropped[|l.dropped|] == n;
    }
    assert forall i :: 0 <= i < |l.accepted| ==> r.accepted[i] == l.accepted[i];
    assert forall i :: 0 <= i < |l.dropped| ==> r.dropped[i] == l.dropped[i];
    forall j | 0 <= j < |r.dispatched| ensures r.dispatched[j] != "" && (j in r.accepted || j in r.dropped) {
      assert j < n ==> l.dispatched[j] != "" && (j in l.accepted || j in l.dropped);
    }
  }

  /** The accepted lines are those written out, those in the buffer and those in the queue, in this order. */
  ghost predicate QueueOk(m: Machine)
    requires LedgerOk(m.log)
  {
    |m.core.queue| <= CAPACITY && Taken(m.log) == m.done + m.inTx + m.core.queue
  }

  /** Exactly one handler, timer wait or write is active until a write fails, and none afterwards. */
  ghost predicate ControlOk(m: Machine) {
    var c := m.core;
    && c.timers + c.writes + (if c.drain.Some? then 1 else 0) == (if m.failed then 0 else 1)
    && c.listening == !m.failed
    && (c.drain.Some? ==> c.drain.value == |m.inTx|)
    && |m.inTx| <= BATCH
    && (c.timers > 0 ==> m.inTx == [])
    && (c.writes > 0 ==> m.inTx != [])
    && (c.writes == 0 ==> c.moved == 0)
    && c.moved <= |c.tx|
  }

  /** Until a write fails, the buffer is the lines of the batch and what was written before is all earlier lines. */
  ghost predicate StreamOk(m: Machine)
    requires m.core.moved <= |m.core.tx|
  {
    !m.failed ==> m.core.tx == Cat(m.inTx) && m.sent == Cat(m.done) + m.core.tx[..m.core.moved]
  }

  /** The invariant; even after a failed write, what was written is a prefix of the popped lines. */
  ghost predicate Inv(m: Machine) {
    LedgerOk(m.log) && QueueOk(m) && ControlOk(m) && StreamOk(m) && m.sent <= Cat(m.done + m.inTx)
  }

  lemma {:induction false} CatNonEmpty(ls: seq<string>)
    requires ls != [] && forall i :: 0 <= i < |ls| ==> ls[i] != ""
    ensures Cat(ls) != ""
  {
  }

  lemma {:induction false} InvStart(m: Machine)
    requires m == START
    ensures Inv(m)
  {
  }

  lemma {:induction false} InvDispatch(m: Machine, line: string)
    requires Inv(m) && Enabled(m, Dispatch(line))
    ensures Inv(Apply(m, Dispatch(line)))
  {
    RecordOk(m.log, line, |m.core.queue|);
  }

  lemma {:induction false} InvPop(m: Machine)
    requires Inv(m) && Enabled(m, Pop)
    ensures Inv(Apply(m, Pop))
  {
    hide Cat, LedgerOk, Taken;
    var line := m.core.queue[0];
    CatAppend(m.inTx, line);
    assert m.done + (m.inTx + [line]) == (m.done + m.inTx) + [line];
    CatAppend(m.done + m.inTx, line);
  }

  /** Lines are never empty, so the buffer is empty only when it holds no line. */
  lemma {:induction false} BufferEmptiness(m: Machine)
    requires LedgerOk(m.log) && QueueOk(m)
    ensures Cat(m.inTx) == "" <==> m.inTx == []
  {
    if m.inTx != [] {
      forall i | 0 <= i < |m.inTx| ensures m.inTx[i] != "" {
        assert m.inTx[i] == Taken(m.log)[|m.done| + i];
      }
      CatNonEmpty(m.inTx);
    }
  }

  lemma {:induction false} InvEndDrain(m: Machine)
    requires Inv(m) && Enabled(m, EndDrain)
    ensures Inv(Apply(m, EndDrain))
  {
    BufferEmptiness(m);
  }

  lemma {:induction false} InvTransfer(m: Machine, k: nat)
    requires Inv(m) && Enabled(m, Transfer(k))
    ensures Inv(Apply(m, Transfer(k)))
  {
    hide LedgerOk, Taken, Cat;
    var tx, n := m.core.tx, m.core.moved;
    CatConcat(m.done, m.inTx);
    assert tx[..n + k] == tx[..n] + tx[n..n + k];
    assert tx[..n + k] <= tx;
  }

  lemma {:induction false} InvWriteDone(m: Machine)
    requires Inv(m) && Enabled(m, WriteDone)
    ensures Inv(Apply(m, WriteDone))
  {
    hide LedgerOk, Taken;
    CatConcat(m.done, m.inTx);
    assert m.core.tx[..m.core.moved] == m.core.tx;
    assert (m.done + m.inTx) + [] == m.done + m.inTx;
    assert m.sent + "" == m.sent;
  }

  lemma {:induction false} InvStep(m: Machine, s: Step)
    requires Inv(m) && Enabled(m, s)
    ensures Inv(Apply(m, s))
  {
    match s
    case Dispatch(line) => InvDispatch(m, line);
    case Pop => InvPop(m);
    case EndDrain => InvEndDrain(m);
    case TimerFires =>
    case Transfer(k) => InvTransfer(m, k);
    case WriteDone => InvWriteDone(m);
    case WriteFails =>
  }

  ghost predicate IsRun(run: seq<Machine>, steps: seq<Step>) {
    && |run| == |steps| + 1
    && run[0] == START
    && forall i :: 0 <= i < |steps| ==> Enabled(run[i], steps[i]) && run[i + 1] == Apply(run[i], steps[i])
  }

  lemma {:induction false} InvRun(run: seq<Machine>, steps: seq<Step>, k: nat)
    requires IsRun(run, steps) && k < |run|
    ensures Inv(run[k])
  {
    hide Inv, Apply, Enabled;
    if k == 0 {
      InvStart(run[0]);
    } else {
      InvRun(run, steps, k - 1);
      InvStep(run[k - 1], steps[k - 1]);
    }
  }

  /** The session machine, over every run: one activity outstanding up to the first failed write and none
      after; an empty buffer on each entry to the drain step; one to eight whole lines a write, and fewer
      than eight only when no more were queued; and dispatched = dropped + queued + popped with a bounded queue. */
  lemma {:induction false} SessionSafety(run: seq<Machine>, steps: seq<Step>, k: nat)
    requires IsRun(run, steps) && k < |run|
    ensures var m := run[k]; var c := m.core;
            && (!m.failed ==> c.timers + c.writes == if c.drain.Some? then 0 else 1)
            && (m.failed ==> c.timers == c.writes == 0 && c.drain.None? && !c.listening)
            && (c.drain == Some(0) ==> c.tx == "")
            && (c.writes > 0 ==> 1 <= |m.inTx| <= 8 && c.tx == Cat(m.inTx))
            && (Enabled(m, EndDrain) ==> |m.inTx| == 8 || c.queue == [])
            && LedgerOk(m.log) && Taken(m.log) == m.done + m.inTx + c.queue
            && |m.log.dispatched| == |m.log.dropped| + |c.queue| + Popped(m)
            && |c.queue| <= 2048
  {
    InvRun(run, steps, k);
  }

  /** A failed write ends the session: no step is possible any more. */
  lemma {:induction false} FailedIsFinal(m: Machine, s: Step)
    requires Inv(m) && m.failed
    ensures !Enabled(m, s)
  {
  }

  // ----- progress

  /** Nothing is queued and nothing waits in the buffer. */
  predicate Drained(m: Machine) {
    m.core.queue == [] && m.core.tx == ""
  }

  /** How far the session is from that: four steps a queued line, and what is left of the current round. */
  function Rank(c: Core): (r: nat) {
    4 * |c.queue|
    + if c.drain.Some? then (if c.drain.value == 0 then 0 else 3)
      else if c.writes > 0 then (if c.moved < |c.tx| then 2 else 1)
      else 1
  }

  /** A step of the session's own, other than a failure. */
  predicate OwnStep(s: Step) {
    !s.Dispatch? && !s.WriteFails?
  }

  /** Until it is drained or a write fails, the session always has a step of its own that brings it nearer. */
  lemma {:induction false} SessionAdvances(m: Machine) returns (s: Step)
    requires Inv(m) && !m.failed && !Drained(m)
    ensures OwnStep(s) && Enabled(m, s) && Rank(Apply(m, s).core) < Rank(m.core)
    ensures !Apply(m, s).failed && Apply(m, s).log == m.log
  {
    BufferEmptiness(m);
    hide LedgerOk, QueueOk, Cat;
    var c := m.core;
    if c.drain.Some? {
      s := if CanPop(c) then Pop else EndDrain;
    } else if c.writes > 0 {
      s := if c.moved < |c.tx| then Transfer(|c.tx| - c.moved) else WriteDone;
    } else {
      s := TimerFires;
    }
  }

  // ----- the handlers are made of these steps

  /** A whole drain is a sequence of Pop steps closed by EndDrain, so the class's handlers only take
      transitions of the system. */
  lemma {:induction false} DrainIsSteps(m: Machine) returns (run: seq<Machine>, steps: seq<Step>)
    requires m.core.drain.Some?
    ensures |run| == |steps| + 1 && run[0] == m
    ensures forall i :: 0 <= i < |steps| ==> Enabled(run[i], steps[i]) && run[i + 1] == Apply(run[i], steps[i])
    ensures |steps| > 0 && run[|steps|].core == RunDrain(m.core)
    ensures forall i :: 0 <= i < |steps| ==> steps[i] == if i == |steps| - 1 then EndDrain else Pop
    decreases |m.core.queue|
  {
    if CanPop(m.core) {
      var r, s := DrainIsSteps(Apply(m, Pop));
      run, steps := [m] + r, [Pop] + s;
    } else {
      run, steps := [m, Apply(m, EndDrain)], [EndDrain];
    }
  }
}
