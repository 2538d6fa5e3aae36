/**
  The forwarding pipeline from the agent's producer thread (can_agent/main.cc) through one
  session and one TCP connection to a client. The transition system interleaves producing,
  dispatching, the session's steps, the movement of bytes by TCP in arbitrary segments, and
  the client's calls. One connection is followed: the client does not reconnect within it.
  */
module Pipeline {
  import opened Basics
  import opened CanLine
  import opened HexCodec
  import opened Numerals
  import opened TextLines
  import S = AgentSession
  import N = NetClient

  /** The low `k` bytes of `n`, least significant first: an integer as it lies in memory. */
  function LittleEndian(n: nat, k: nat): (r: seq<byte>)
    ensures |r| == k
  {
    if k == 0 then [] else [n % 256] + LittleEndian(n / 256, k - 1)
  }

  /** The number that bytes in memory denote on a little-endian machine: the sum of b[k] * 256^k. */
  function MemoryValue(b: seq<byte>): (r: nat) {
    if b == [] then 0 else MemoryValue(b[..|b| - 1]) + b[|b| - 1] * Pow(256, |b| - 1)
  }

  lemma {:induction false} MemoryValueCons(x: byte, b: seq<byte>)
    ensures MemoryValue([x] + b) == x + 256 * MemoryValue(b)
    decreases |b|
  {
    var s := [x] + b;
    if b == [] {
      assert s[..0] == [];
      assert Pow(256, 0) == 1 && MemoryValue(s[..0]) == 0;
    } else {
      var n := |b| - 1;
      MemoryValueCons(x, b[..n]);
      assert s[..|s| - 1] == [x] + b[..n];
      Scaled(b[n], Pow(256, n));
    }
  }

  lemma {:induction false} Scaled(x: int, p: int)
    ensures x * (256 * p) == 256 * (x * p)
  {
  }

  lemma {:induction false} ModUnique(x: int, q: int, r: int, m: int)
    requires x == q * m + r && 0 <= r < m
    ensures x % m == r
  {
    var d := x / m;
    assert x == d * m + x % m;
    if d < q {
      MulMono(m, d + 1, q);
    } else if q < d {
      MulMono(m, q + 1, d);
    }
  }

  /** The bytes of an integer in memory denote it, as far as they go. */
  lemma {:induction false} LittleEndianValue(n: nat, k: nat)
    ensures Pow(256, k) > 0 && MemoryValue(LittleEndian(n, k)) == n % Pow(256, k)
    decreases k
  {
    PowPositive(256, k);
    if k > 0 {
      var p, high := Pow(256, k - 1), n / 256;
      LittleEndianValue(high, k - 1);
      MemoryValueCons(n % 256, LittleEndian(high, k - 1));
      var q, r := high / p, high % p;
      assert high == q * p + r;
      Scaled(q, p);
      ModUnique(n, q, 256 * r + n % 256, 256 * p);
    } else {
      assert n % 1 == 0;
    }
  }

  lemma {:induction false} EightBytes(n: nat)
    ensures MemoryValue(LittleEndian(n, 8)) == n % 0x1_0000_0000_0000_0000
  {
    LittleEndianValue(n, 8);
    assert Pow(256, 2) == 0x1_0000;
    assert Pow(256, 4) == 0x1_0000 * Pow(256, 2);
    assert Pow(256, 6) == 0x1_0000 * Pow(256, 4);
    assert Pow(256, 8) == 0x1_0000 * Pow(256, 6);
  }

  /** What a produced line says, read character by character: the header, the counter and the tick as 64-bit numbers
      in memory order, the object, and a newline. */
  ghost predicate LineSays(line: string, count: nat, tick: nat, obj: CanObj) {
    && |line| == 93 && line[..12] == "VCI_Receive," && line[92] == '\n'
    && IsHexText(line[12..28]) && IsHexText(line[28..44]) && IsHexText(line[44..92])
    && MemoryValue(HexValue(line[12..28])) == count % 0x1_0000_0000_0000_0000
    && MemoryValue(HexValue(line[28..44])) == tick % 0x1_0000_0000_0000_0000
    && HexValue(line[44..92]) == obj
  }

  lemma {:induction false} FrameLineSays(count: nat, tick: nat, obj: CanObj)
    ensures LineSays(FrameLine(count, tick, obj), count, tick, obj)
  {
    var a, b := LittleEndian(count, 8), LittleEndian(tick, 8);
    FrameText(a, b, obj);
    EightBytes(count);
    EightBytes(tick);
    FrameSlices(a, b, obj);
  }

  lemma {:induction false} FrameSlices(a: QWord, b: QWord, obj: CanObj)
    ensures var line := FrameBody(a, b, obj) + "\n";
            && |line| == 93 && line[..12] == "VCI_Receive," && line[92] == '\n'
            && IsHexText(line[12..28]) && IsHexText(line[28..44]) && IsHexText(line[44..92])
            && HexValue(line[12..28]) == a && HexValue(line[28..44]) == b && HexValue(line[44..92]) == obj
  {
    DecodeEncode(a);
    DecodeEncode(b);
    DecodeEncode(obj);
    hide HexText, HexValue;
    var line := FrameBody(a, b, obj) + "\n";
    assert line[12..28] == HexText(a);
    assert line[28..44] == HexText(b);
    assert line[44..92] == HexText(obj);
  }

  /** A frame as numbered and time-stamped by the producer. */
  datatype FrameRec = FrameRec(count: nat, tick: nat, obj: CanObj)

  function Body(f: FrameRec): (r: string) {
    FrameBody(LittleEndian(f.count, 8), LittleEndian(f.tick, 8), f.obj)
  }

  /** The text of one call of the encoder in canRxFunc. */
  function FrameLine(count: nat, tick: nat, obj: CanObj): (r: string) {
    CommandText(Frame(LittleEndian(count, 8), LittleEndian(tick, 8), obj))
  }

  function Line(f: FrameRec): (r: string) {
    FrameLine(f.count, f.tick, f.obj)
  }

  lemma {:induction false} LineIsBody(f: FrameRec)
    ensures Line(f) == Body(f) + "\n" && '\n' !in Body(f)
    ensures Decoded(Body(f)) == Some(f.obj)
  {
    FrameText(LittleEndian(f.count, 8), LittleEndian(f.tick, 8), f.obj);
    FrameRoundTrip(LittleEndian(f.count, 8), LittleEndian(f.tick, 8), f.obj);
  }

  // ----- the producer

  /** The 64-bit counter `i` frames after it was `count`. */
  function Counter(count: nat, i: nat): (r: nat) {
    (count + i) % TWO64
  }

  /** The records made for a batch of received objects: consecutive 64-bit numbers, in order. */
  function Batch(count: nat, objs: seq<CanObj>, ticks: seq<nat>): (r: seq<FrameRec>)
    requires |objs| == |ticks|
    ensures |r| == |objs|
    ensures forall i :: 0 <= i < |objs| ==> r[i] == FrameRec(Counter(count, i), ticks[i], objs[i])
  {
    seq(|objs|, i requires 0 <= i < |objs| => FrameRec(Counter(count, i), ticks[i], objs[i]))
  }

  function LinesOf(fs: seq<FrameRec>): (r: seq<string>)
    ensures |r| == |fs|
    ensures forall i :: 0 <= i < |fs| ==> r[i] == Line(fs[i])
  {
    seq(|fs|, i requires 0 <= i < |fs| => Line(fs[i]))
  }

  lemma {:induction false} BatchLines(count: nat, objs: seq<CanObj>, ticks: seq<nat>)
    requires |objs| == |ticks|
    ensures var lines := LinesOf(Batch(count, objs, ticks));
            && |lines| == |objs|
            && forall i :: 0 <= i < |objs| ==> lines[i] == FrameLine(Counter(count, i), ticks[i], objs[i])
  {
    hide FrameLine, Counter;
  }

  /** Line i says the i-th object and tick, and the counter i further on. */
  ghost predicate LinesSay(lines: seq<string>, count: nat, objs: seq<CanObj>, ticks: seq<nat>) {
    && |lines| == |objs| == |ticks|
    && forall i :: 0 <= i < |lines| ==> LineSays(lines[i], count + i, ticks[i], objs[i])
  }

  lemma {:induction false} BatchSays(count: nat, objs: seq<CanObj>, ticks: seq<nat>)
    requires |objs| == |ticks|
    ensures LinesSay(LinesOf(Batch(count, objs, ticks)), count, objs, ticks)
  {
    BatchLines(count, objs, ticks);
    var lines := LinesOf(Batch(count, objs, ticks));
    hide LineSays, FrameLine, LinesOf, Batch, Counter;
    forall i | 0 <= i < |lines| ensures LineSays(lines[i], count + i, ticks[i], objs[i]) {
      CountedLineSays(count, i, ticks[i], objs[i]);
    }
  }

  lemma {:induction false} CountedLineSays(count: nat, i: nat, tick: nat, obj: CanObj)
    ensures LineSays(FrameLine(Counter(count, i), tick, obj), count + i, tick, obj)
  {
    FrameLineSays(Counter(count, i), tick, obj);
    hide LineSays, FrameLine;
    SameCount(FrameLine(Counter(count, i), tick, obj), Counter(count, i), count + i, tick, obj);
  }

  lemma {:induction false} SameCount(line: string, a: nat, b: nat, tick: nat, obj: CanObj)
    requires LineSays(line, a, tick, obj) && a == b % 0x1_0000_0000_0000_0000
    ensures LineSays(line, b, tick, obj)
  {
  }

  lemma {:induction false} CounterNext(count: nat, i: nat)
    ensures (Counter(count, i) + 1) % TWO64 == Counter(count, i + 1)
    ensures count < TWO64 ==> Counter(count, 0) == count
  {
  }

  class Producer {
    var sendCount: nat
    var events: seq<string>

    /** Encode one object into the buffer and enqueue that. */
    method Enqueue(obj: CanObj, tick: nat)
      modifies this
      ensures events == old(events) + [FrameLine(old(sendCount), tick, obj)]
      ensures sendCount == (old(sendCount) + 1) % TWO64
    {
      hide CommandText, LittleEndian, BufferSize;
      var buff, n := Encode(Frame(LittleEndian(sendCount, 8), LittleEndian(tick, 8), obj));
      events := events + [buff[..n]];
      sendCount := (sendCount + 1) % TWO64;
    }

    /** The loop of canRxFunc over the received objects. */
    method EnqueueAll(objs: seq<CanObj>, ticks: seq<nat>, ghost lines: seq<string>)
      requires |objs| == |ticks| == |lines| && sendCount == Counter(sendCount, 0) && events == []
      requires forall i :: 0 <= i < |objs| ==> lines[i] == FrameLine(Counter(sendCount, i), ticks[i], objs[i])
      modifies this
      ensures events == lines && sendCount == Counter(old(sendCount), |objs|)
    {
      hide *;
      for i := 0 to |objs|
        invariant sendCount == Counter(old(sendCount), i)
        invariant |events| == i && forall k :: 0 <= k < i ==> events[k] == lines[k]
      {
        CounterNext(old(sendCount), i);
        Enqueue(objs[i], ticks[i]);
      }
    }

    /** One round of canRxFunc: encode and enqueue each received object, then dispatch the queue if anything
        was received. Nothing stays queued. */
    method Round(objs: seq<CanObj>, ticks: seq<nat>) returns (out: seq<string>)
      requires |objs| == |ticks| && sendCount < TWO64 && events == []
      modifies this
      ensures out == LinesOf(Batch(old(sendCount), objs, ticks))
      ensures LinesSay(out, old(sendCount), objs, ticks)
      ensures events == [] && sendCount == Counter(old(sendCount), |objs|)
    {
      ghost var lines := LinesOf(Batch(sendCount, objs, ticks));
      BatchLines(sendCount, objs, ticks);
      BatchSays(sendCount, objs, ticks);
      hide *;
      CounterNext(sendCount, 0);
      EnqueueAll(objs, ticks, lines);
      out := [];
      if |objs| > 0 {
        out, events := events, [];
      }
    }
  }

  // ----- the transition system

  /** `frames` are the frames dispatched to the session since start(); `wire` is what TCP carries. */
  datatype Pipe = Pipe(count: nat, events: seq<FrameRec>, m: S.Machine, frames: seq<FrameRec>,
                       wire: string, c: N.Client)

  datatype Step =
    | Produce(obj: CanObj, tick: nat)
    | DispatchHead
    | Session(s: S.Step)
    | Deliver(k: nat)
    | Client(a: N.Action)

  predicate Enabled(p: Pipe, s: Step) {
    match s
    case Produce(_, _) => true
    case DispatchHead => p.events != []
    case Session(t) => !t.Dispatch? && S.Enabled(p.m, t)
    case Deliver(k) => 0 < k <= |p.wire| && N.Waiting(p.c)
    case Client(a) => !a.Arrive? && !a.Reconnect? && N.Enabled(p.c, a)
  }

  function Apply(p: Pipe, s: Step): (r: Pipe)
    requires Enabled(p, s)
  {
    match s
    case Produce(obj, tick) =>
      p.(events := p.events + [FrameRec(p.count, tick, obj)], count := (p.count + 1) % TWO64)
    case DispatchHead =>
      var line := Line(p.events[0]);
      if S.Enabled(p.m, S.Dispatch(line)) then
        p.(events := p.events[1..], m := S.Apply(p.m, S.Dispatch(line)), frames := p.frames + [p.events[0]])
      else p.(events := p.events[1..])
    case Session(t) =>
      var m := S.Apply(p.m, t);
      p.(m := m, wire := p.wire + if |p.m.sent| <= |m.sent| then m.sent[|p.m.sent|..] else "")
    case Deliver(k) => p.(wire := p.wire[k..], c := N.Apply(p.c, N.Arrive(p.wire[..k])))
    case Client(a) => p.(c := N.Apply(p.c, a))
  }

  /** The steps lead from the first state of `run` to its last. */
  ghost predicate Path(run: seq<Pipe>, steps: seq<Step>) {
    && |run| == |steps| + 1
    && forall i :: 0 <= i < |steps| ==> Enabled(run[i], steps[i]) && run[i + 1] == Apply(run[i], steps[i])
  }

  lemma {:induction false} PathCons(p: Pipe, s: Step, run: seq<Pipe>, steps: seq<Step>)
    requires Path(run, steps) && Enabled(p, s) && run[0] == Apply(p, s)
    ensures Path([p] + run, [s] + steps)
  {
    hide Apply, Enabled;
    var r, t := [p] + run, [s] + steps;
    forall i | 0 <= i < |t| ensures Enabled(r[i], t[i]) && r[i + 1] == Apply(r[i], t[i]) {
      if i > 0 {
        assert r[i] == run[i - 1] && t[i] == steps[i - 1] && r[i + 1] == run[i];
      }
    }
  }

  lemma {:induction false} PathConcat(r1: seq<Pipe>, s1: seq<Step>, r2: seq<Pipe>, s2: seq<Step>)
    requires Path(r1, s1) && Path(r2, s2) && |r1| == |s1| + 1 && |r2| == |s2| + 1 && r1[|s1|] == r2[0]
    ensures Path(r1 + r2[1..], s1 + s2)
    ensures (r1 + r2[1..])[|s1| + |s2|] == r2[|s2|]
  {
    hide Apply, Enabled;
    var r, t := r1 + r2[1..], s1 + s2;
    forall i | 0 <= i < |t| ensures Enabled(r[i], t[i]) && r[i + 1] == Apply(r[i], t[i]) {
      if i >= |s1| {
        var j := i - |s1|;
        assert r[i] == r2[j] && t[i] == s2[j] && r[i + 1] == r2[j + 1];
      }
    }
  }

  /** The state after a batch of objects was produced. */
  function Queued(p: Pipe, objs: seq<CanObj>, ticks: seq<nat>): (r: Pipe)
    requires |objs| == |ticks| && p.count < TWO64
  {
    p.(events := p.events + Batch(p.count, objs, ticks), count := Counter(p.count, |objs|))
  }

  lemma {:induction false} ProducePath(p: Pipe, objs: seq<CanObj>, ticks: seq<nat>)
      returns (run: seq<Pipe>, steps: seq<Step>)
    requires |objs| == |ticks| && p.count < TWO64
    ensures Path(run, steps) && |steps| + 1 == |run| && |steps| == |objs|
    ensures run[0] == p && run[|steps|] == Queued(p, objs, ticks)
    ensures forall i :: 0 <= i < |steps| ==> steps[i] == Produce(objs[i], ticks[i])
    decreases |objs|
  {
    if objs == [] {
      run, steps := [p], [];
      assert Queued(p, objs, ticks) == p;
    } else {
      var s := Produce(objs[0], ticks[0]);
      var q := Apply(p, s);
      var r, t := ProducePath(q, objs[1..], ticks[1..]);
      PathCons(p, s, r, t);
      run, steps := [p] + r, [s] + t;
      QueuedStep(p, objs, ticks);
    }
  }

  lemma {:induction false} QueuedStep(p: Pipe, objs: seq<CanObj>, ticks: seq<nat>)
    requires |objs| == |ticks| && p.count < TWO64 && objs != []
    ensures Queued(Apply(p, Produce(objs[0], ticks[0])), objs[1..], ticks[1..]) == Queued(p, objs, ticks)
  {
    hide Batch, S.Apply, S.Enabled, N.Apply, N.Enabled, Line;
    BatchStep(p.count, objs, ticks);
    CountStep(p.count, |objs| - 1);
    Associative(p.events, [FrameRec(p.count, ticks[0], objs[0])], Batch((p.count + 1) % TWO64, objs[1..], ticks[1..]));
  }

  lemma {:induction false} BatchStep(count: nat, objs: seq<CanObj>, ticks: seq<nat>)
    requires |objs| == |ticks| && count < TWO64 && objs != []
    ensures Batch(count, objs, ticks)
         == [FrameRec(count, ticks[0], objs[0])] + Batch((count + 1) % TWO64, objs[1..], ticks[1..])
  {
    var b, c := Batch(count, objs, ticks), Batch((count + 1) % TWO64, objs[1..], ticks[1..]);
    forall i | 0 <= i < |c| ensures b[i + 1] == c[i] {
      CountStep(count, i);
    }
  }

  lemma {:induction false} CountStep(count: nat, i: nat)
    requires count < TWO64
    ensures ((count + 1) % TWO64 + i) % TWO64 == (count + (i + 1)) % TWO64
  {
  }

  /** The state after the whole queue was dispatched to a listening session, or to none. */
  ghost predicate Dispatched(p: Pipe, r: Pipe) {
    && r.events == [] && r.count == p.count && r.wire == p.wire && r.c == p.c
    && (p.m.core.listening ==> r.frames == p.frames + p.events
                               && r.m.log.dispatched == p.m.log.dispatched + LinesOf(p.events))
    && (!p.m.core.listening ==> r.frames == p.frames && r.m == p.m)
  }

  lemma {:induction false} DispatchPath(p: Pipe) returns (run: seq<Pipe>, steps: seq<Step>)
    ensures Path(run, steps) && |steps| + 1 == |run| && |steps| == |p.events|
    ensures run[0] == p && Dispatched(p, run[|steps|])
    ensures forall i :: 0 <= i < |steps| ==> steps[i] == DispatchHead
    decreases |p.events|
  {
    if p.events == [] {
      run, steps := [p], [];
    } else {
      var r, t := DispatchPath(Apply(p, DispatchHead));
      PathCons(p, DispatchHead, r, t);
      run, steps := [p] + r, [DispatchHead] + t;
      DispatchedStep(p, r[|t|]);
    }
  }

  lemma {:induction false} DispatchedStep(p: Pipe, r: Pipe)
    requires p.events != [] && Dispatched(Apply(p, DispatchHead), r)
    ensures Dispatched(p, r)
  {
    LineIsBody(p.events[0]);
    hide Line, Body, S.Apply, S.Enabled, N.Apply, N.Enabled;
    var f, rest := p.events[0], p.events[1..];
    DispatchLog(p.m, Line(f));
    assert p.events == [f] + rest;
    LinesOfCons(f, rest);
    Associative(p.frames, [f], rest);
    Associative(p.m.log.dispatched, [Line(f)], LinesOf(rest));
  }

  lemma {:induction false} LinesOfCons(f: FrameRec, fs: seq<FrameRec>)
    ensures LinesOf([f] + fs) == [Line(f)] + LinesOf(fs)
  {
    hide Line;
  }

  lemma {:induction false} DispatchLog(m: S.Machine, line: string)
    requires line != ""
    ensures S.Enabled(m, S.Dispatch(line)) <==> m.core.listening
    ensures m.core.listening ==>
              var r := S.Apply(m, S.Dispatch(line));
              r.core.listening && r.log.dispatched == m.log.dispatched + [line]
  {
  }

  /** A round of the producer is one Produce step an object followed by one DispatchHead step each; it leaves the
      queue empty and the counter advanced, and a listening session has been handed exactly the lines that
      Round returns. */
  lemma {:induction false} RoundIsSteps(p: Pipe, objs: seq<CanObj>, ticks: seq<nat>)
      returns (run: seq<Pipe>, steps: seq<Step>)
    requires |objs| == |ticks| && p.count < TWO64 && p.events == []
    ensures Path(run, steps) && |steps| + 1 == |run| && |steps| == 2 * |objs| && run[0] == p
    ensures forall i :: 0 <= i < |steps| ==>
                          steps[i] == if i < |objs| then Produce(objs[i], ticks[i]) else DispatchHead
    ensures var r := run[|steps|];
            && r.events == [] && r.count == Counter(p.count, |objs|) && r.wire == p.wire && r.c == p.c
            && (p.m.core.listening ==>
                  && r.frames == p.frames + Batch(p.count, objs, ticks)
                  && r.m.log.dispatched == p.m.log.dispatched + LinesOf(Batch(p.count, objs, ticks)))
            && (!p.m.core.listening ==> r.m == p.m)
  {
    hide Path, Apply, Enabled, Batch, LinesOf, Line, Body;
    var r1, s1 := ProducePath(p, objs, ticks);
    var r2, s2 := DispatchPath(Queued(p, objs, ticks));
    PathConcat(r1, s1, r2, s2);
    run, steps := r1 + r2[1..], s1 + s2;
    assert p.events + Batch(p.count, objs, ticks) == Batch(p.count, objs, ticks);
  }

  /** A started session, an idle connected client and nothing on the wire. */
  ghost predicate Initial(p: Pipe) {
    && p.m == S.START && p.frames == [] && p.wire == ""
    && p.c == N.Client("", true, None, [], "", [])
  }

  /** The frames the session's queue accepted, in order. */
  ghost function Accepted(p: Pipe): (r: seq<FrameRec>)
    requires S.LedgerOk(p.m.log) && |p.frames| == |p.m.log.dispatched|
    ensures |r| == |p.m.log.accepted|
    ensures forall i :: 0 <= i < |r| ==> r[i] == p.frames[p.m.log.accepted[i]]
  {
    var d := p.m.log.accepted;
    seq(|d|, i requires 0 <= i < |d| => p.frames[d[i]])
  }

  function Bodies(fs: seq<FrameRec>): (r: seq<string>)
    ensures |r| == |fs|
    ensures forall i :: 0 <= i < |fs| ==> r[i] == Body(fs[i])
  {
    seq(|fs|, i requires 0 <= i < |fs| => Body(fs[i]))
  }

  function Objs(fs: seq<FrameRec>): (r: seq<CanObj>)
    ensures |r| == |fs|
    ensures forall i :: 0 <= i < |fs| ==> r[i] == fs[i].obj
  {
    seq(|fs|, i requires 0 <= i < |fs| => fs[i].obj)
  }

  /** Every object handed to a caller so far, in order: finished calls, then the slots of the current one. */
  function Outputs(c: N.Client): (r: seq<CanObj>) {
    c.returned + if c.call.Some? then Slots(c.call.value.mem, c.call.value.cnt) else []
  }

  ghost predicate FramesOk(p: Pipe) {
    |p.frames| == |p.m.log.dispatched| && p.m.log.dispatched == LinesOf(p.frames)
  }

  ghost predicate BytesOk(p: Pipe) {
    && S.Inv(p.m) && FramesOk(p) && N.Conserved(p.c)
    && p.m.sent == p.c.received + p.wire
  }

  /** The callers have exactly the objects of the first accepted frames, and no caller's memory was overrun. */
  ghost predicate OutputsOk(p: Pipe)
    requires S.LedgerOk(p.m.log) && FramesOk(p)
  {
    && |p.c.consumed| <= |Accepted(p)|
    && Outputs(p.c) == Objs(Accepted(p)[..|p.c.consumed|])
    && (p.c.call.Some? ==> !p.c.call.value.overran)
  }

  // ----- bytes

  lemma {:induction false} CatIsJoin(fs: seq<FrameRec>)
    ensures S.Cat(LinesOf(fs)) == Join(Bodies(fs)) && NewlineFree(Bodies(fs))
    decreases |fs|
  {
    hide Body, Line;
    if fs != [] {
      var init, f := fs[..|fs| - 1], fs[|fs| - 1];
      CatIsJoin(init);
      LineIsBody(f);
      assert LinesOf(fs) == LinesOf(init) + [Line(f)];
      S.CatAppend(LinesOf(init), Line(f));
      assert Bodies(fs) == Bodies(init) + [Body(f)];
      JoinSnoc(Bodies(init), Body(f));
    }
  }

  lemma {:induction false} JoinSnoc(ls: seq<string>, x: string)
    ensures Join(ls + [x]) == Join(ls) + (x + "\n")
  {
    JoinConcat(ls, [x]);
    assert Join([x]) == x + "\n" + Join([x][1..]);
  }

  lemma {:induction false} TakenAreLines(p: Pipe)
    requires S.LedgerOk(p.m.log) && FramesOk(p)
    ensures S.Taken(p.m.log) == LinesOf(Accepted(p))
  {
  }

  /** If the consumed lines and some bytes are a prefix of whole lines, they are the first of those lines. */
  lemma {:induction false} PrefixFraming(a: seq<string>, x: string, b: seq<string>)
    requires NewlineFree(a) && NewlineFree(b) && Join(a) + x <= Join(b)
    ensures a <= b
  {
    hide Join, Lines;
    var y := Join(b)[|Join(a) + x|..];
    assert Join(b) == (Join(a) + x) + y == Join(a) + (x + y);
    N.ConsumedAreFirstLines(a, x + y);
    JoinThenSplit(b, "");
    assert Join(b) + "" == Join(b);
    assert b == a + Lines(x + y);
  }

  /** The lines the client consumed are those of the first accepted frames. */
  lemma {:induction false} ConsumedAreAccepted(p: Pipe)
    requires BytesOk(p)
    ensures p.c.consumed <= Bodies(Accepted(p))
  {
    hide Join, S.Cat, Lines, Bodies, LinesOf, Accepted, S.Taken;
    TakenAreLines(p);
    CatIsJoin(Accepted(p));
    S.CatConcat(p.m.done + p.m.inTx, p.m.core.queue);
    var x := p.c.rx + p.wire;
    assert Join(p.c.consumed) + x == (Join(p.c.consumed) + p.c.rx) + p.wire == p.m.sent;
    PrefixFraming(p.c.consumed, x, Bodies(Accepted(p)));
  }

  /** Whatever is buffered or on the wire is lines of the agent too, so every payload is exactly one object. */
  lemma {:induction false} PayloadsAreSingle(p: Pipe)
    requires BytesOk(p)
    ensures p.c.consumed + Lines(p.c.rx + p.wire) <= Bodies(Accepted(p))
    ensures N.OneObjectLines(p.c.rx + p.wire)
  {
    hide Join, S.Cat, Lines, LinesOf, Accepted, S.Taken, Decoded, Body;
    TakenAreLines(p);
    CatIsJoin(Accepted(p));
    S.CatConcat(p.m.done + p.m.inTx, p.m.core.queue);
    var x, b := p.c.rx + p.wire, Bodies(Accepted(p));
    var more, rest := Lines(x), Rest(x);
    calc {
      p.m.sent;
      (Join(p.c.consumed) + p.c.rx) + p.wire;
      Join(p.c.consumed) + x;
      { SplitThenJoin(x); }
      Join(p.c.consumed) + (Join(more) + rest);
      (Join(p.c.consumed) + Join(more)) + rest;
      { JoinConcat(p.c.consumed, more); }
      Join(p.c.consumed + more) + rest;
    }
    PrefixFraming(p.c.consumed + more, rest, b);
    forall i | 0 <= i < |more| ensures OneObject(more[i]) {
      var n := |p.c.consumed| + i;
      assert (p.c.consumed + more)[n] == b[n];
      LineIsBody(Accepted(p)[n]);
    }
  }

  lemma {:induction false} SentGrows(m: S.Machine, s: S.Step)
    requires S.Enabled(m, s)
    ensures m.sent <= S.Apply(m, s).sent
    ensures !s.Dispatch? ==> S.Apply(m, s).log == m.log
  {
  }

  lemma {:induction false} BytesStep(p: Pipe, s: Step)
    requires BytesOk(p) && Enabled(p, s)
    ensures BytesOk(Apply(p, s))
  {
    hide S.Inv, N.Conserved;
    match s
    case Produce(_, _) =>
    case DispatchHead =>
      var f := p.events[0];
      if S.Enabled(p.m, S.Dispatch(Line(f))) {
        S.InvStep(p.m, S.Dispatch(Line(f)));
        assert LinesOf(p.frames + [f]) == LinesOf(p.frames) + [Line(f)];
      }
    case Session(t) =>
      S.InvStep(p.m, t);
      SentGrows(p.m, t);
    case Deliver(k) =>
      var a := N.Arrive(p.wire[..k]);
      assert N.Enabled(p.c, a);
      N.ApplyConserved(p.c, a);
      assert p.c.received + p.wire == (p.c.received + p.wire[..k]) + p.wire[k..];
    case Client(a) =>
      N.ApplyConserved(p.c, a);
      ClientKeepsReceived(p.c, a);
  }

  lemma {:induction false} ClientKeepsReceived(c: N.Client, a: N.Action)
    requires N.Enabled(c, a) && !a.Arrive?
    ensures N.Apply(c, a).received == c.received
  {
  }

  // ----- outputs

  /** An accepted frame stays at its place when more frames are dispatched. */
  lemma {:induction false} AcceptedGrows(p: Pipe, s: Step)
    requires BytesOk(p) && Enabled(p, s)
    ensures BytesOk(Apply(p, s)) && Accepted(p) <= Accepted(Apply(p, s))
  {
    BytesStep(p, s);
    hide S.Inv, N.Conserved, N.Apply;
    assert S.LedgerOk(p.m.log) && S.LedgerOk(Apply(p, s).m.log) by {
      InvGivesLedger(p.m);
      InvGivesLedger(Apply(p, s).m);
    }
    if s.Session? {
      SentGrows(p.m, s.s);
      assert Accepted(Apply(p, s)) == Accepted(p);
    }
  }

  lemma {:induction false} InvGivesLedger(m: S.Machine)
    requires S.Inv(m)
    ensures S.LedgerOk(m.log)
  {
  }

  /** Decoding one more line appends the object of the next accepted frame. */
  lemma {:induction false} TakeLineOutputs(c: N.Client, f: FrameRec)
    requires c.call.Some? && c.call.value.cnt < c.call.value.len && '\n' in c.rx
    requires N.TakeLine(c).consumed == c.consumed + [Body(f)]
    ensures Outputs(N.TakeLine(c)) == Outputs(c) + [f.obj]
    ensures N.TakeLine(c).call.value.overran == c.call.value.overran
  {
    LineIsBody(f);
    hide Decoded, Body;
    var k := c.call.value;
    var line := c.rx[..FindNewline(c.rx)];
    assert (c.consumed + [line])[|c.consumed|] == (c.consumed + [Body(f)])[|c.consumed|];
    assert line == Body(f) && Fits(line, |k.mem|, OBJ_SIZE * k.cnt);
    StoredSlots(k.mem, k.cnt, f.obj);
    assert N.TakeLine(c).call.value.mem == Overlay(k.mem, OBJ_SIZE * k.cnt, f.obj);
    assert Outputs(c) + [f.obj] == c.returned + (Slots(k.mem, k.cnt) + [f.obj]);
  }

  lemma {:induction false} StoredSlots(mem: seq<byte>, n: nat, obj: CanObj)
    requires OBJ_SIZE * (n + 1) <= |mem|
    ensures Slots(Overlay(mem, OBJ_SIZE * n, obj), n + 1) == Slots(mem, n) + [obj]
  {
    var after := Overlay(mem, OBJ_SIZE * n, obj);
    forall i | 0 <= i < n ensures Slot(after, i) == Slot(mem, i) {
    }
    assert Slot(after, n) == obj;
  }

  /** The client's other actions hand over nothing. */
  lemma {:induction false} QuietOutputs(c: N.Client, a: N.Action)
    requires N.Enabled(c, a) && !a.ReadLine? && !a.PostLine?
    ensures var r := N.Apply(c, a); r.consumed == c.consumed && Outputs(r) == Outputs(c)
    ensures var r := N.Apply(c, a);
            (c.call.Some? ==> !c.call.value.overran) ==> (r.call.Some? ==> !r.call.value.overran)
  {
  }

  lemma {:induction false} LineOutputs(p: Pipe, s: Step)
    requires BytesOk(p) && OutputsOk(p) && Enabled(p, s) && s.Client? && (s.a.ReadLine? || s.a.PostLine?)
    requires BytesOk(Apply(p, s))
    ensures OutputsOk(Apply(p, s))
  {
    hide BytesOk, Bodies, Objs, Body, Accepted;
    var r, n := Apply(p, s), |p.c.consumed|;
    ConsumedAreAccepted(r);
    SameAccepted(p, r);
    var t := Accepted(r);
    NthBody(t, n);
    assert r.c == N.TakeLine(p.c) && n < |t|;
    assert r.c.consumed[n] == Bodies(t)[n];
    TakeLineOutputs(p.c, t[n]);
    ObjsSnoc(t, n);
  }

  lemma {:induction false} SameAccepted(p: Pipe, r: Pipe)
    requires BytesOk(p) && BytesOk(r) && p.m == r.m && p.frames == r.frames
    ensures S.LedgerOk(p.m.log) && FramesOk(p) && FramesOk(r) && Accepted(p) == Accepted(r)
  {
  }

  lemma {:induction false} NthBody(fs: seq<FrameRec>, n: nat)
    ensures |Bodies(fs)| == |fs| && (n < |fs| ==> Bodies(fs)[n] == Body(fs[n]))
  {
  }

  lemma {:induction false} ObjsSnoc(fs: seq<FrameRec>, n: nat)
    requires n < |fs|
    ensures Objs(fs[..n + 1]) == Objs(fs[..n]) + [fs[n].obj]
  {
  }

  lemma {:induction false} OutputsStep(p: Pipe, s: Step)
    requires BytesOk(p) && OutputsOk(p) && Enabled(p, s)
    ensures BytesOk(Apply(p, s)) && OutputsOk(Apply(p, s))
  {
    hide S.Inv, N.Conserved, N.TakeLine, Outputs, Objs;
    var r := Apply(p, s);
    AcceptedGrows(p, s);
    InvGivesLedger(p.m);
    InvGivesLedger(r.m);
    if s.Client? && (s.a.ReadLine? || s.a.PostLine?) {
      LineOutputs(p, s);
    } else {
      if s.Client? {
        QuietOutputs(p.c, s.a);
      } else if s.Deliver? {
        QuietOutputs(p.c, N.Arrive(p.wire[..s.k]));
      }
      var n := |p.c.consumed|;
      assert r.c.consumed == p.c.consumed;
      assert Accepted(r)[..n] == Accepted(p)[..n];
    }
  }

  ghost predicate IsRun(run: seq<Pipe>, steps: seq<Step>) {
    Path(run, steps) && Initial(run[0])
  }

  lemma {:induction false} InitialOk(p: Pipe)
    requires Initial(p)
    ensures BytesOk(p) && OutputsOk(p)
  {
    S.InvStart(p.m);
    InvGivesLedger(p.m);
    hide S.Inv, S.LedgerOk;
    assert N.Conserved(p.c) && FramesOk(p);
    hide N.Conserved, FramesOk;
    assert p.m.log.accepted == [] && Accepted(p)[..0] == [];
    assert Objs([]) == [] && Outputs(p.c) == [];
  }

  lemma {:induction false} RunOk(run: seq<Pipe>, steps: seq<Step>, k: nat)
    requires IsRun(run, steps) && k < |run|
    ensures BytesOk(run[k]) && OutputsOk(run[k])
  {
    hide BytesOk, OutputsOk, Apply, Enabled, Initial;
    if k == 0 {
      InitialOk(run[0]);
    } else {
      RunOk(run, steps, k - 1);
      OutputsStep(run[k - 1], steps[k - 1]);
    }
  }

  /** Everything between the callers and the queue: client buffer, wire, unsent part of the batch, queue. */
  ghost function InFlight(p: Pipe): (r: string)
    requires p.m.core.moved <= |p.m.core.tx|
  {
    p.c.rx + (p.wire + (p.m.core.tx[p.m.core.moved..] + S.Cat(p.m.core.queue)))
  }

  /** End to end, over every interleaving and every segmentation: the objects handed to callers are those of
      the first accepted frames, in order and without repetition; a frame that was not accepted met a
      full queue; while no write has failed, the accepted frames not yet handed over are exactly the
      bytes in flight; and no payload is stored past a caller's memory. */
  lemma {:induction false} EndToEnd(run: seq<Pipe>, steps: seq<Step>, k: nat)
    requires IsRun(run, steps) && k < |run|
    ensures var p := run[k]; var l := p.m.log; var out := Outputs(p.c);
            && |p.frames| == |l.dispatched| == |l.occupancy|
            && |out| <= |l.accepted| && S.Increasing(l.accepted)
            && (forall i :: 0 <= i < |l.accepted| ==> l.accepted[i] < |p.frames|)
            && (forall i :: 0 <= i < |out| ==> out[i] == p.frames[l.accepted[i]].obj)
            && (forall j :: 0 <= j < |p.frames| ==> j in l.accepted || l.occupancy[j] == 2048)
            && S.LedgerOk(l)
            && (p.c.call.Some? ==> !p.c.call.value.overran)
            && (!p.m.failed ==> p.m.core.moved <= |p.m.core.tx|
                                && Join(Bodies(Accepted(p))[|out|..]) == InFlight(p))
  {
    RunOk(run, steps, k);
    var p := run[k];
    var n := |p.c.consumed|;
    assert Objs(Accepted(p)[..n]) == Outputs(p.c);
    if !p.m.failed {
      MissingAreInFlight(p);
    }
  }

  lemma {:induction false} MissingAreInFlight(p: Pipe)
    requires BytesOk(p) && !p.m.failed
    ensures |p.c.consumed| <= |Accepted(p)| && Join(Bodies(Accepted(p))[|p.c.consumed|..]) == InFlight(p)
  {
    hide Join, S.Cat, Lines, Bodies, LinesOf, Accepted, S.Taken;
    var core := p.m.core;
    TakenAreLines(p);
    CatIsJoin(Accepted(p));
    ConsumedAreAccepted(p);
    assert |Bodies(Accepted(p))| == |Accepted(p)|;
    var b := Bodies(Accepted(p));
    var missing := b[|p.c.consumed|..];
    assert b == p.c.consumed + missing;
    var queued, unsent, head := S.Cat(core.queue), core.tx[core.moved..], Join(p.c.consumed);
    assert Join(b) == p.m.sent + unsent + queued by {
      S.CatConcat(p.m.done + p.m.inTx, core.queue);
      S.CatConcat(p.m.done, p.m.inTx);
      Reassemble(S.Cat(p.m.done), core.tx, core.moved, queued);
    }
    JoinConcat(p.c.consumed, missing);
    GroupRight(head, p.c.rx, p.wire, unsent, queued);
    N.LeftCancel(head, Join(missing), InFlight(p));
  }

  lemma {:induction false} Reassemble(done: string, tx: string, moved: nat, queued: string)
    requires moved <= |tx|
    ensures (done + tx) + queued == (done + tx[..moved]) + tx[moved..] + queued
  {
  }

  lemma {:induction false} GroupRight(head: string, rx: string, wire: string, unsent: string, queued: string)
    ensures ((head + rx) + wire) + unsent + queued == head + (rx + (wire + (unsent + queued)))
  {
  }

  // ----- progress

  /** A state the pipeline can go on from: no write has failed and the client is connected. */
  ghost predicate Live(p: Pipe) {
    BytesOk(p) && OutputsOk(p) && !p.m.failed && p.c.connected
  }

  /** The steps that neither bring in frames nor fail. */
  predicate Quiet(s: Step) {
    match s
    case Produce(_, _) => false
    case DispatchHead => false
    case Session(t) => S.OwnStep(t)
    case Deliver(_) => true
    case Client(a) => !a.Drop? && (a.Stop? ==> !a.failed)
  }

  /** The same frames were dispatched and accepted. */
  predicate SameFrames(p: Pipe, q: Pipe) {
    p.frames == q.frames && p.m.log == q.m.log
  }

  lemma {:induction false} QuietStep(p: Pipe, s: Step)
    requires Live(p) && Enabled(p, s) && Quiet(s)
    ensures Live(Apply(p, s)) && SameFrames(p, Apply(p, s))
  {
    OutputsStep(p, s);
    hide BytesOk, OutputsOk;
    if s.Session? {
      SentGrows(p.m, s.s);
    }
  }

  /** Quiet steps lead from `p` to `q`. */
  ghost predicate Calm(p: Pipe, run: seq<Pipe>, steps: seq<Step>, q: Pipe) {
    && Path(run, steps) && |run| == |steps| + 1 && run[0] == p && run[|steps|] == q
    && forall i :: 0 <= i < |steps| ==> Quiet(steps[i])
  }

  lemma {:induction false} CalmNone(p: Pipe)
    ensures Calm(p, [p], [], p)
  {
  }

  lemma {:induction false} CalmCons(p: Pipe, s: Step, run: seq<Pipe>, steps: seq<Step>, q: Pipe)
    requires Enabled(p, s) && Quiet(s) && Calm(Apply(p, s), run, steps, q)
    ensures Calm(p, [p] + run, [s] + steps, q)
  {
    PathCons(p, s, run, steps);
    hide Path, Apply, Enabled, Quiet;
  }

  lemma {:induction false} CalmConcat(p: Pipe, r1: seq<Pipe>, s1: seq<Step>, q: Pipe, r2: seq<Pipe>, s2: seq<Step>,
                                      r: Pipe)
    requires Calm(p, r1, s1, q) && Calm(q, r2, s2, r)
    ensures Calm(p, r1 + r2[1..], s1 + s2, r)
  {
    PathConcat(r1, s1, r2, s2);
    hide Path, Quiet;
  }

  /** The session sends all it has. */
  lemma {:induction false} SendAll(p: Pipe) returns (run: seq<Pipe>, steps: seq<Step>, q: Pipe)
    requires Live(p)
    ensures Calm(p, run, steps, q) && Live(q) && SameFrames(p, q) && S.Drained(q.m) && q.c == p.c
    decreases S.Rank(p.m.core)
  {
    if S.Drained(p.m) {
      CalmNone(p);
      run, steps, q := [p], [], p;
    } else {
      var t := S.SessionAdvances(p.m);
      var s := Session(t);
      QuietStep(p, s);
      var r, ss;
      r, ss, q := SendAll(Apply(p, s));
      CalmCons(p, s, r, ss, q);
      run, steps := [p] + r, [s] + ss;
    }
  }

  /** The client ends a call that is in progress. */
  lemma {:induction false} EndCall(p: Pipe) returns (run: seq<Pipe>, steps: seq<Step>, q: Pipe)
    requires Live(p)
    ensures Calm(p, run, steps, q) && Live(q) && SameFrames(p, q) && q.m == p.m && q.wire == p.wire
    ensures q.c.call.None? && (p.c.rx == "" ==> q.c.rx == "")
    decreases if p.c.call.Some? then 1 else 0, if p.c.call.Some? && !p.c.call.value.stopped then 1 else 0, |p.c.rx|
  {
    if p.c.call.None? {
      CalmNone(p);
      run, steps, q := [p], [], p;
    } else {
      var a := if !p.c.call.value.stopped then N.Stop(false) else if N.CanPost(p.c) then N.PostLine else N.Return;
      var s := Client(a);
      QuietStep(p, s);
      hide Live, Calm, N.TakeLine;
      var r, ss;
      r, ss, q := EndCall(Apply(p, s));
      CalmCons(p, s, r, ss, q);
      run, steps := [p] + r, [s] + ss;
    }
  }

  /** The accepted frames not yet handed over. */
  ghost function Missing(p: Pipe): (r: nat)
    requires Live(p)
  {
    |Accepted(p)| - |p.c.consumed|
  }

  /** With a drained session and an empty wire, the client's buffer is the lines of the missing frames. */
  lemma {:induction false} BufferIsMissing(p: Pipe)
    requires Live(p) && S.Drained(p.m) && p.wire == ""
    ensures p.c.rx == "" <==> Missing(p) == 0
    ensures p.c.rx != "" ==> '\n' in p.c.rx
  {
    MissingAreInFlight(p);
    InvGivesMoved(p.m);
    assert InFlight(p) == p.c.rx;
    var missing := Bodies(Accepted(p))[|p.c.consumed|..];
    if missing != [] {
      assert Join(missing)[|missing[0]|] == '\n';
    }
  }

  lemma {:induction false} InvGivesMoved(m: S.Machine)
    requires S.Inv(m)
    ensures m.core.moved <= |m.core.tx| && S.Cat([]) == ""
  {
  }

  /** The client takes every line there is in one call that is long enough. */
  lemma {:induction false} ReadAll(p: Pipe) returns (run: seq<Pipe>, steps: seq<Step>, q: Pipe)
    requires Live(p) && S.Drained(p.m) && p.wire == ""
    requires p.c.call.Some? && !p.c.call.value.stopped && p.c.call.value.len - p.c.call.value.cnt == Missing(p)
    ensures Calm(p, run, steps, q) && Live(q) && SameFrames(p, q) && q.m == p.m && q.wire == "" && q.c.rx == ""
    decreases |p.c.rx|
  {
    BufferIsMissing(p);
    if p.c.rx == "" {
      CalmNone(p);
      run, steps, q := [p], [], p;
    } else {
      var s := Client(N.ReadLine);
      QuietStep(p, s);
      ReadOne(p);
      hide Calm, Live, Missing, N.TakeLine;
      var r, ss;
      r, ss, q := ReadAll(Apply(p, s));
      CalmCons(p, s, r, ss, q);
      run, steps := [p] + r, [s] + ss;
    }
  }

  lemma {:induction false} ReadOne(p: Pipe)
    requires Live(p) && Enabled(p, Client(N.ReadLine)) && Live(Apply(p, Client(N.ReadLine)))
    ensures var q := Apply(p, Client(N.ReadLine)); var k := q.c.call;
            && q.m == p.m && q.wire == p.wire && |q.c.rx| < |p.c.rx|
            && k.Some? && k.value.len == p.c.call.value.len && k.value.cnt == p.c.call.value.cnt + 1
            && k.value.stopped == p.c.call.value.stopped && Missing(q) == Missing(p) - 1
  {
    var q := Apply(p, Client(N.ReadLine));
    SameAccepted(p, q);
    hide BytesOk, Accepted;
  }

  /** A call for all that is missing is begun and the wire delivered to it. */
  lemma {:induction false} BeginForAll(p: Pipe) returns (run: seq<Pipe>, steps: seq<Step>, q: Pipe)
    requires Live(p) && p.c.call.None? && Missing(p) > 0
    ensures Calm(p, run, steps, q) && Live(q) && SameFrames(p, q) && q.m == p.m && q.wire == ""
    ensures q.c.call.Some? && !q.c.call.value.stopped && q.c.call.value.len - q.c.call.value.cnt == Missing(q)
  {
    var n := Missing(p);
    var mem: seq<byte> := seq(OBJ_SIZE * n, _ => 0);
    var s := Client(N.Begin(mem, n));
    QuietStep(p, s);
    var b := Apply(p, s);
    SameAccepted(p, b);
    CalmNone(b);
    if b.wire == "" {
      CalmCons(p, s, [b], [], b);
      run, steps, q := [p] + [b], [s] + [], b;
    } else {
      var d := Deliver(|b.wire|);
      QuietStep(b, d);
      q := Apply(b, d);
      SameAccepted(b, q);
      CalmNone(q);
      hide Live, Calm;
      CalmCons(b, d, [q], [], q);
      CalmCons(p, s, [b] + [q], [d] + [], q);
      run, steps := [p] + ([b] + [q]), [s] + ([d] + []);
    }
  }

  lemma {:induction false} TakeAll(p: Pipe) returns (run: seq<Pipe>, steps: seq<Step>, q: Pipe)
    requires Live(p) && S.Drained(p.m) && p.c.call.None?
    ensures Calm(p, run, steps, q) && Live(q) && SameFrames(p, q) && S.Drained(q.m)
    ensures q.wire == "" && q.c.rx == "" && q.c.call.None?
  {
    if Missing(p) == 0 {
      NothingMissing(p);
      CalmNone(p);
      run, steps, q := [p], [], p;
    } else {
      hide Live, Calm, Missing;
      var r1, s1, b := BeginForAll(p);
      var r2, s2, c := ReadAll(b);
      var r3, s3, d := EndCall(c);
      CalmConcat(b, r2, s2, c, r3, s3, d);
      CalmConcat(p, r1, s1, b, r2 + r3[1..], s2 + s3, d);
      run, steps, q := r1 + (r2 + r3[1..])[1..], s1 + (s2 + s3), d;
    }
  }

  lemma {:induction false} NothingMissing(p: Pipe)
    requires Live(p) && S.Drained(p.m) && Missing(p) == 0
    ensures p.wire == "" && p.c.rx == ""
  {
    MissingAreInFlight(p);
    InvGivesMoved(p.m);
    assert Bodies(Accepted(p))[|p.c.consumed|..] == [];
    assert InFlight(p) == p.c.rx + p.wire;
  }

  /** Progress: from every reachable state in which no write has failed and the client is connected, there is a way on
      without new frames to a state with nothing in flight, in which the callers have been handed exactly the
      objects of all accepted frames, in order. */
  lemma {:induction false} Progress(run: seq<Pipe>, steps: seq<Step>, k: nat)
      returns (more: seq<Pipe>, way: seq<Step>, q: Pipe)
    requires IsRun(run, steps) && k < |run| && !run[k].m.failed && run[k].c.connected
    ensures Path(more, way) && |more| == |way| + 1 && more[0] == run[k] && more[|way|] == q
    ensures forall i :: 0 <= i < |way| ==> !way[i].Produce? && !way[i].DispatchHead?
    ensures S.LedgerOk(run[k].m.log) && FramesOk(run[k]) && q.m.core.moved <= |q.m.core.tx| && InFlight(q) == ""
    ensures q.c.call.None? && q.c.returned == Objs(Accepted(run[k]))
  {
    var p := run[k];
    RunOk(run, steps, k);
    hide Live, Calm, IsRun;
    assert Live(p) by { LiveIs(p); }
    var r1, s1, a := SendAll(p);
    var r2, s2, b := EndCall(a);
    var r3, s3, c := TakeAll(b);
    CalmConcat(a, r2, s2, b, r3, s3, c);
    CalmConcat(p, r1, s1, a, r2 + r3[1..], s2 + s3, c);
    more, way, q := r1 + (r2 + r3[1..])[1..], s1 + (s2 + s3), c;
    CalmIs(p, more, way, q);
    AllHandedOver(p, q);
  }

  lemma {:induction false} LiveIs(p: Pipe)
    requires BytesOk(p) && OutputsOk(p) && !p.m.failed && p.c.connected
    ensures Live(p)
  {
  }

  lemma {:induction false} CalmIs(p: Pipe, run: seq<Pipe>, steps: seq<Step>, q: Pipe)
    requires Calm(p, run, steps, q)
    ensures Path(run, steps) && |run| == |steps| + 1 && run[0] == p && run[|steps|] == q
    ensures forall i :: 0 <= i < |steps| ==> !steps[i].Produce? && !steps[i].DispatchHead?
  {
    hide Path;
  }

  lemma {:induction false} AllHandedOver(p: Pipe, q: Pipe)
    requires Live(p) && Live(q) && SameFrames(p, q) && S.Drained(q.m) && q.wire == "" && q.c.rx == "" && q.c.call.None?
    ensures S.LedgerOk(p.m.log) && FramesOk(p) && q.m.core.moved <= |q.m.core.tx| && InFlight(q) == ""
    ensures q.c.returned == Objs(Accepted(p))
  {
    InvGivesLedger(p.m);
    InvGivesLedger(q.m);
    InvGivesMoved(q.m);
    BufferIsMissing(q);
    hide S.Inv, S.LedgerOk, N.Conserved;
    assert Accepted(p) == Accepted(q);
    assert Accepted(q)[..|q.c.consumed|] == Accepted(q);
    assert Outputs(q.c) == q.c.returned;
  }
}
