/**
  The receiving side of the network client (lib_control_can_imp_net.cc): VCI_Receive
  reframes an arbitrarily segmented byte stream into lines and decodes them into the
  caller's array, first in completion handlers run by asio and then in a loop over what
  is left in the buffer. The caller's array is memory: a line is decoded at its slot, and a
  payload longer than one object runs on into the slots behind it and past the end.

  `Client` is the state as a value, with its history; `Apply` gives each atomic action.
  `Served` is a whole call under a schedule of asio events, composed of those actions,
  and `ClientObject.VciReceive` is the method, proved to compute exactly that.
  */
module NetClient {
  import opened Basics
  import opened CanLine
  import opened TextLines

  /** A VCI_Receive in progress: the caller's memory, `stopped` once the event loop has returned, and `overran`
      once a payload went past the end of the memory. What the program does after that is undefined; the
      states after it only record that it happened. */
  datatype CallState = Call(mem: seq<byte>, len: nat, cnt: nat, stopped: bool, overran: bool)
  type Call = k: CallState | k.cnt <= k.len && OBJ_SIZE * k.len <= |k.mem| witness Call([], 0, 0, false, false)

  /** `consumed` holds every line taken off the buffer, `received` every byte read from the socket, and
      `returned` the slots handed to the callers of finished calls. */
  datatype Client = Client(rx: string, connected: bool, call: Option<Call>,
                           consumed: seq<string>, received: string, returned: seq<CanObj>)

  /** `Drop` is a command whose write fails between two calls, `Reconnect` the connect of VCI_OpenDevice. */
  datatype Action =
    | Begin(mem: seq<byte>, len: nat)
    | Arrive(bytes: string)
    | ReadLine
    | Stop(failed: bool)
    | PostLine
    | Return
    | Drop
    | Reconnect

  predicate Waiting(c: Client) {
    c.call.Some? && !c.call.value.stopped && c.call.value.cnt < c.call.value.len
  }

  predicate CanPost(c: Client) {
    && c.call.Some? && c.call.value.stopped && c.call.value.cnt < c.call.value.len
    && c.connected && '\n' in c.rx
  }

  predicate Enabled(c: Client, a: Action) {
    match a
    case Begin(mem, len) => c.call.None? && c.connected && 0 < len && OBJ_SIZE * len <= |mem|
    case Arrive(_) => Waiting(c)
    case ReadLine => Waiting(c) && '\n' in c.rx
    case Stop(failed) => c.call.Some? && !c.call.value.stopped && (failed ==> Waiting(c))
    case PostLine => CanPost(c)
    case Return => c.call.Some? && c.call.value.stopped && !CanPost(c)
    case Drop => c.call.None? && c.connected
    case Reconnect => c.call.None? && !c.connected
  }

  /** Decode the first buffered line into the current slot and consume it with its newline. */
  function TakeLine(c: Client): (r: Client)
    requires c.call.Some? && c.call.value.cnt < c.call.value.len && '\n' in c.rx
    ensures r.call.Some? && r.call.value.stopped == c.call.value.stopped && |r.rx| < |c.rx|
  {
    LinesStep(c.rx);
    var pos := FindNewline(c.rx);
    var line, k := c.rx[..pos], c.call.value;
    var at := OBJ_SIZE * k.cnt;
    c.(rx := c.rx[pos + 1..], consumed := c.consumed + [line],
       call := Some(k.(mem := MemoryAfter(line, k.mem, at), cnt := k.cnt + 1,
                       overran := k.overran || !Fits(line, |k.mem|, at))))
  }

  function Apply(c: Client, a: Action): (r: Client)
    requires Enabled(c, a)
  {
    match a
    case Begin(mem, len) => c.(call := Some(Call(mem, len, 0, false, false)))
    case Arrive(bytes) => c.(rx := c.rx + bytes, received := c.received + bytes)
    case ReadLine => TakeLine(c)
    case Stop(failed) => c.(call := Some(c.call.value.(stopped := true)), connected := c.connected && !failed)
    case PostLine => TakeLine(c)
    case Return =>
      var k := c.call.value;
      c.(call := None, returned := c.returned + Slots(k.mem, k.cnt))
    case Drop => c.(connected := false)
    case Reconnect => c.(connected := true)
  }

  // ----- one whole call

  /** What asio does next while the call waits: deliver bytes, complete the read, report the cancellation
      caused by the deadline, or report any other error. */
  datatype Io = Bytes(bytes: string) | Ready | Cancelled | Broken

  /** The event loop. Running out of schedule is the deadline. A completion without a buffered newline
      starts no further read. */
  function Reading(c: Client, sched: seq<Io>): (r: Client)
    requires c.call.Some? && !c.call.value.stopped
    decreases |sched|
  {
    if !Waiting(c) || sched == [] then Apply(c, Stop(false))
    else
      match sched[0]
      case Bytes(b) => Reading(Apply(c, Arrive(b)), sched[1..])
      case Ready => if '\n' in c.rx then Reading(Apply(c, ReadLine), sched[1..]) else Apply(c, Stop(false))
      case Cancelled => Apply(c, Stop(false))
      case Broken => Apply(c, Stop(true))
  }

  /** The loop over the buffer after the event loop. */
  function Posting(c: Client): (r: Client)
    decreases |c.rx|
  {
    if CanPost(c) then Posting(Apply(c, PostLine)) else c
  }

  /** The state at the end of a call, just before it returns. */
  function Served(c: Client, mem: seq<byte>, len: nat, sched: seq<Io>): (r: Client)
    requires Enabled(c, Begin(mem, len))
  {
    Posting(Reading(Apply(c, Begin(mem, len)), sched))
  }

  // ----- framing

  /** Some line's payload, stored at the slot of its number, ends past the memory. */
  ghost predicate Overruns(lines: seq<string>, size: nat) {
    exists i :: 0 <= i < |lines| && !Fits(lines[i], size, OBJ_SIZE * i)
  }

  /** No byte is lost or invented: consumed lines with their newlines, then the buffer. */
  ghost predicate Conserved(c: Client) {
    NewlineFree(c.consumed) && c.received == Join(c.consumed) + c.rx
  }

  /** Since state `a`, a call over `mem` has decoded exactly the lines consumed since. */
  ghost predicate Serving(a: Client, mem: seq<byte>, len: nat, c: Client) {
    && c.call.Some? && c.call.value.len == len
    && a.consumed <= c.consumed && a.received <= c.received && c.returned == a.returned
    && c.call.value.cnt == |c.consumed| - |a.consumed| <= len
    && c.call.value.mem == Poured(mem, c.consumed[|a.consumed|..])
    && (c.call.value.overran <==> Overruns(c.consumed[|a.consumed|..], |mem|))
  }

  lemma {:induction false} TakeLineConserved(c: Client)
    requires c.call.Some? && c.call.value.cnt < c.call.value.len && '\n' in c.rx && Conserved(c)
    ensures Conserved(TakeLine(c))
  {
    hide Join, MemoryAfter, Fits;
    LinesStep(c.rx);
    var pos := FindNewline(c.rx);
    var line, rest := c.rx[..pos], c.rx[pos + 1..];
    assert c.rx == line + "\n" + rest;
    JoinTake(c.consumed, line, rest);
  }

  lemma {:induction false} JoinTake(ls: seq<string>, line: string, rest: string)
    ensures Join(ls + [line]) + rest == Join(ls) + (line + "\n" + rest)
  {
    JoinConcat(ls, [line]);
    JoinCons(line, []);
    assert [line] + [] == [line];
    assert Join([]) == "";
    hide Join;
    assert (Join(ls) + (line + "\n")) + rest == Join(ls) + (line + "\n" + rest);
  }

  lemma {:induction false} ApplyConserved(c: Client, a: Action)
    requires Conserved(c) && Enabled(c, a)
    ensures Conserved(Apply(c, a))
  {
    match a
    case Arrive(bytes) => assert Join(c.consumed) + (c.rx + bytes) == (Join(c.consumed) + c.rx) + bytes;
    case ReadLine => TakeLineConserved(c);
    case PostLine => TakeLineConserved(c);
    case _ =>
  }

  lemma {:induction false} TakeLineServing(a: Client, mem: seq<byte>, len: nat, c: Client)
    requires Serving(a, mem, len, c) && '\n' in c.rx && c.call.value.cnt < len
    ensures Serving(a, mem, len, TakeLine(c))
  {
    hide MemoryAfter, Fits;
    var d, n := TakeLine(c), |a.consumed|;
    var before, line := c.consumed[n..], c.rx[..FindNewline(c.rx)];
    assert d.consumed[n..] == before + [line];
    PouredSnoc(mem, before, line);
    OverrunsSnoc(before, line, |mem|);
  }

  lemma {:induction false} PouredSnoc(mem: seq<byte>, lines: seq<string>, line: string)
    ensures Poured(mem, lines + [line]) == MemoryAfter(line, Poured(mem, lines), OBJ_SIZE * |lines|)
  {
    hide MemoryAfter;
    assert (lines + [line])[..|lines|] == lines;
  }

  lemma {:induction false} OverrunsSnoc(lines: seq<string>, line: string, size: nat)
    ensures Overruns(lines + [line], size) <==> Overruns(lines, size) || !Fits(line, size, OBJ_SIZE * |lines|)
  {
    hide Fits;
    var more := lines + [line];
    assert forall i :: 0 <= i < |lines| ==> more[i] == lines[i];
    assert more[|lines|] == line;
  }

  lemma {:induction false} ApplyServing(a: Client, mem: seq<byte>, len: nat, c: Client, act: Action)
    requires Serving(a, mem, len, c) && Enabled(c, act) && !act.Begin? && !act.Return?
    ensures Serving(a, mem, len, Apply(c, act))
  {
    match act
    case ReadLine => TakeLineServing(a, mem, len, c);
    case PostLine => TakeLineServing(a, mem, len, c);
    case _ =>
  }

  lemma {:induction false} ReadingInvariant(a: Client, mem: seq<byte>, len: nat, c: Client, sched: seq<Io>)
    requires Conserved(c) && Serving(a, mem, len, c) && !c.call.value.stopped
    ensures var r := Reading(c, sched); Conserved(r) && Serving(a, mem, len, r) && r.call.value.stopped
    decreases |sched|
  {
    hide Conserved, TakeLine;
    if !Waiting(c) || sched == [] {
      ApplyConserved(c, Stop(false));
      ApplyServing(a, mem, len, c, Stop(false));
    } else {
      var act := match sched[0]
        case Bytes(b) => Arrive(b)
        case Ready => if '\n' in c.rx then ReadLine else Stop(false)
        case Cancelled => Stop(false)
        case Broken => Stop(true);
      ApplyConserved(c, act);
      ApplyServing(a, mem, len, c, act);
      if !act.Stop? {
        StillRunning(c, act);
        ReadingInvariant(a, mem, len, Apply(c, act), sched[1..]);
      }
    }
  }

  lemma {:induction false} StillRunning(c: Client, a: Action)
    requires Waiting(c) && Enabled(c, a) && !a.Stop?
    ensures Apply(c, a).call.Some? && !Apply(c, a).call.value.stopped
  {
  }

  lemma {:induction false} PostingInvariant(a: Client, mem: seq<byte>, len: nat, c: Client)
    requires Conserved(c) && Serving(a, mem, len, c) && c.call.value.stopped
    ensures var r := Posting(c); Conserved(r) && Serving(a, mem, len, r) && r.call.value.stopped && !CanPost(r)
    decreases |c.rx|
  {
    hide Conserved, TakeLine;
    if CanPost(c) {
      TakeLineConserved(c);
      TakeLineServing(a, mem, len, c);
      PostingInvariant(a, mem, len, TakeLine(c));
    }
  }

  lemma {:induction false} PostingStops(c: Client)
    ensures !CanPost(Posting(c))
    decreases |c.rx|
  {
    if CanPost(c) {
      PostingStops(Apply(c, PostLine));
    }
  }

  lemma {:induction false} ConsumedAreFirstLines(consumed: seq<string>, rx: string)
    requires NewlineFree(consumed)
    ensures Lines(Join(consumed) + rx) == consumed + Lines(rx)
  {
    var more, rest := Lines(rx), Rest(rx);
    calc {
      Join(consumed) + rx;
      { SplitThenJoin(rx); }
      Join(consumed) + (Join(more) + rest);
      (Join(consumed) + Join(more)) + rest;
      { JoinConcat(consumed, more); }
      Join(consumed + more) + rest;
    }
    JoinThenSplit(consumed + more, rest);
  }

  /** The bytes buffered before a call and those that arrive during it. */
  ghost function Stream(a: Client, r: Client): (s: string)
    requires a.received <= r.received
  {
    a.rx + r.received[|a.received|..]
  }

  /** Framing, for every schedule of arrivals, completions, deadlines and errors: a call that returns n has
      n <= len and consumed exactly the first n complete lines of its stream; consumed lines and the buffer
      make up the stream; unless n = len or the connection was dropped no newline remains buffered. The
      caller's memory is what those lines leave, each stored at the slot of its number: the slot of an
      accepted line holds the start of its payload, a slot no payload reaches is untouched, and the
      memory is overrun exactly when some payload ends past it. */
  lemma {:induction false} ReceiveFraming(a: Client, mem: seq<byte>, len: nat, sched: seq<Io>)
    requires Conserved(a) && Enabled(a, Begin(mem, len))
    ensures var r := Served(a, mem, len, sched);
            && r.call.Some? && a.received <= r.received && Conserved(r)
            && var k, all := r.call.value, Lines(Stream(a, r));
            && var n := k.cnt;
            && n <= len && n <= |all| && |k.mem| == |mem|
            && r.consumed == a.consumed + all[..n]
            && Stream(a, r) == Join(all[..n]) + r.rx
            && (n == len || !r.connected || '\n' !in r.rx)
            && (Broken !in sched ==> r.connected)
            && k.mem == Poured(mem, all[..n])
            && (k.overran <==> exists i :: 0 <= i < n && !Fits(all[i], |mem|, OBJ_SIZE * i))
            && (forall i :: 0 <= i < n && Decoded(all[i]).Some? ==>
                              Slot(k.mem, i) == Decoded(all[i]).value[..OBJ_SIZE])
            && (forall i :: 0 <= i < len && (forall j: nat :: !Reaches(all[..n], j, i)) ==>
                              Slot(k.mem, i) == Slot(mem, i))
            && Enabled(r, Return)
  {
    ServedInvariant(a, mem, len, sched);
    hide Poured, Fits, Decoded, Reaches, Slot, Served, Conserved, Lines, Join, Overruns, CanPost, Enabled;
    var r := Served(a, mem, len, sched);
    FramingFromInvariant(a, mem, len, r);
    SlotsFromLines(mem, Lines(Stream(a, r)), r.call.value.cnt, len);
  }

  lemma {:induction false} ServedInvariant(a: Client, mem: seq<byte>, len: nat, sched: seq<Io>)
    requires Conserved(a) && Enabled(a, Begin(mem, len))
    ensures var r := Served(a, mem, len, sched);
            && Conserved(r) && Serving(a, mem, len, r) && Enabled(r, Return)
            && (r.call.value.cnt == len || !r.connected || '\n' !in r.rx)
            && (Broken !in sched ==> r.connected)
  {
    hide Poured, Conserved, Overruns;
    var b := Apply(a, Begin(mem, len));
    ServingStart(a, mem, len);
    ReadingInvariant(a, mem, len, b, sched);
    PostingInvariant(a, mem, len, Reading(b, sched));
    ReadingConnected(b, sched);
    PostingConnected(Reading(b, sched));
  }

  lemma {:induction false} ServingStart(a: Client, mem: seq<byte>, len: nat)
    requires Conserved(a) && Enabled(a, Begin(mem, len))
    ensures var b := Apply(a, Begin(mem, len)); Conserved(b) && Serving(a, mem, len, b) && !b.call.value.stopped
  {
    assert a.consumed[|a.consumed|..] == [];
    assert Poured(mem, []) == mem;
  }

  lemma {:induction false} SlotsFromLines(mem: seq<byte>, all: seq<string>, n: nat, len: nat)
    requires n <= |all| && n <= len && OBJ_SIZE * len <= |mem|
    ensures forall i :: 0 <= i < n && Decoded(all[i]).Some? ==>
                          Slot(Poured(mem, all[..n]), i) == Decoded(all[i]).value[..OBJ_SIZE]
    ensures forall i :: 0 <= i < len && (forall j: nat :: !Reaches(all[..n], j, i)) ==>
                          Slot(Poured(mem, all[..n]), i) == Slot(mem, i)
    ensures Overruns(all[..n], |mem|) <==> exists i :: 0 <= i < n && !Fits(all[i], |mem|, OBJ_SIZE * i)
  {
    hide Poured, Decoded, Fits, Reaches, Slot;
    assert forall i :: 0 <= i < n ==> all[..n][i] == all[i];
    forall i | 0 <= i < n && Decoded(all[i]).Some?
      ensures Slot(Poured(mem, all[..n]), i) == Decoded(all[i]).value[..OBJ_SIZE]
    {
      AcceptedSlot(mem, all[..n], i);
    }
    forall i | 0 <= i < len && (forall j: nat :: !Reaches(all[..n], j, i))
      ensures Slot(Poured(mem, all[..n]), i) == Slot(mem, i)
    {
      SlotKept(mem, all[..n], i);
    }
  }

  /** No accepted line of the text carries more than one object. */
  ghost predicate OneObjectLines(s: string) {
    forall i :: 0 <= i < |Lines(s)| ==> OneObject(Lines(s)[i])
  }

  /** On a stream with one object a line nothing is overrun, slot i holds the decoding of line i, or what it held
      if the line was refused, and the slots behind the last line are untouched. */
  lemma {:induction false} OneObjectFraming(a: Client, mem: seq<byte>, len: nat, sched: seq<Io>)
    requires Conserved(a) && Enabled(a, Begin(mem, len))
    ensures var r := Served(a, mem, len, sched);
            && r.call.Some? && a.received <= r.received && |r.call.value.mem| == |mem|
            && var k, all := r.call.value, Lines(Stream(a, r));
            && k.cnt <= |all|
            && (OneObjectLines(Stream(a, r)) ==>
                  && !k.overran
                  && forall i :: 0 <= i < len ==>
                                   Slot(k.mem, i) == if i < k.cnt && Decoded(all[i]).Some? then Decoded(all[i]).value
                                                     else Slot(mem, i))
  {
    ReceiveFraming(a, mem, len, sched);
    hide Served, Stream, Poured, Decoded, Slot, Lines, Join, Conserved;
    var r := Served(a, mem, len, sched);
    var n, all := r.call.value.cnt, Lines(Stream(a, r));
    if OneObjectLines(Stream(a, r)) {
      assert forall j :: 0 <= j < n ==> all[..n][j] == all[j] && OneObject(all[j]);
      forall i | 0 <= i < len
        ensures Slot(r.call.value.mem, i)
             == if i < n && Decoded(all[i]).Some? then Decoded(all[i]).value else Slot(mem, i)
      {
        OneObjectSlot(mem, all[..n], i);
      }
    }
  }

  /** Only an error other than the cancellation drops the connection. */
  lemma {:induction false} ReadingConnected(c: Client, sched: seq<Io>)
    requires c.call.Some? && !c.call.value.stopped
    ensures Broken !in sched ==> Reading(c, sched).connected == c.connected
    decreases |sched|
  {
    if Waiting(c) && sched != [] {
      if sched[0].Bytes? {
        ReadingConnected(Apply(c, Arrive(sched[0].bytes)), sched[1..]);
      } else if sched[0].Ready? && '\n' in c.rx {
        ReadingConnected(Apply(c, ReadLine), sched[1..]);
      }
    }
  }

  lemma {:induction false} PostingConnected(c: Client)
    ensures Posting(c).connected == c.connected
    decreases |c.rx|
  {
    if CanPost(c) {
      PostingConnected(Apply(c, PostLine));
    }
  }

  /** Since a state, the lines consumed are the first ones of what was buffered and what came. */
  lemma {:induction false} ConsumedSince(a: Client, r: Client)
    requires Conserved(a) && Conserved(r) && a.consumed <= r.consumed && a.received <= r.received
    ensures Lines(Stream(a, r)) == r.consumed[|a.consumed|..] + Lines(r.rx)
    ensures Stream(a, r) == Join(r.consumed[|a.consumed|..]) + r.rx
  {
    hide Join, Lines;
    var taken := r.consumed[|a.consumed|..];
    assert r.consumed == a.consumed + taken;
    assert NewlineFree(taken) by {
      assert forall i :: 0 <= i < |taken| ==> taken[i] == r.consumed[|a.consumed| + i];
    }
    var arrived := r.received[|a.received|..];
    assert r.received == a.received + arrived;
    StreamSplit(a.consumed, a.rx, arrived, taken, r.rx);
    ConsumedAreFirstLines(taken, r.rx);
  }

  lemma {:induction false} FramingFromInvariant(a: Client, mem: seq<byte>, len: nat, r: Client)
    requires Conserved(a) && Conserved(r) && Serving(a, mem, len, r)
    ensures var n, all := r.call.value.cnt, Lines(Stream(a, r));
            && n <= |all| && r.consumed == a.consumed + all[..n]
            && r.call.value.mem == Poured(mem, all[..n])
            && (r.call.value.overran <==> Overruns(all[..n], |mem|))
            && Stream(a, r) == Join(all[..n]) + r.rx
  {
    ConsumedSince(a, r);
    hide Join, Lines, Poured, Overruns, Conserved;
    var taken := r.consumed[|a.consumed|..];
    assert r.consumed == a.consumed + taken;
    assert (taken + Lines(r.rx))[..|taken|] == taken;
  }

  lemma {:induction false} StreamSplit(before: seq<string>, rx: string, arrived: string, taken: seq<string>,
                                       rest: string)
    requires Join(before) + rx + arrived == Join(before + taken) + rest
    ensures rx + arrived == Join(taken) + rest
  {
    hide Join;
    calc {
      Join(before) + (rx + arrived);
      Join(before) + rx + arrived;
      { JoinConcat(before, taken); }
      (Join(before) + Join(taken)) + rest;
      Join(before) + (Join(taken) + rest);
    }
    LeftCancel(Join(before), rx + arrived, Join(taken) + rest);
  }

  lemma {:induction false} LeftCancel(p: string, a: string, b: string)
    requires p + a == p + b
    ensures a == b
  {
    assert a == (p + a)[|p|..] && b == (p + b)[|p|..];
  }

  lemma {:induction false} FirstLineJoined(stale: string, arrived: string)
    requires '\n' !in stale
    ensures FindNewline(stale + arrived) == |stale| + FindNewline(arrived)
  {
    var s, i := stale + arrived, FindNewline(arrived);
    assert forall j :: 0 <= j < |stale| ==> s[j] == stale[j];
    assert forall j :: |stale| <= j < |stale| + i ==> s[j] == arrived[j - |stale|];
    assert i < |arrived| ==> s[|stale| + i] == '\n';
  }

  // ----- the event loop

  /** The bytes that arrive in the given events. */
  function Arrived(sched: seq<Io>): (r: string) {
    if sched == [] then "" else (if sched[0].Bytes? then sched[0].bytes else "") + Arrived(sched[1..])
  }

  /** The reads that complete in them. */
  function Completions(sched: seq<Io>): (n: nat) {
    if sched == [] then 0 else (if sched[0].Ready? then 1 else 0) + Completions(sched[1..])
  }

  /** A call in state `c` ends its event loop in state `r` after the first `i` events. It has received the bytes that
      arrived in them and decoded one line a completed read. It stopped there because `len` lines are read, with
      the last of these events; because the schedule ends, which is the deadline; because the wait is
      cancelled or fails, the latter dropping the connection; or because a read completed without a line. */
  ghost predicate LoopEnds(c: Client, sched: seq<Io>, i: nat, r: Client) {
    && c.call.Some? && r.call.Some? && r.call.value.stopped && r.call.value.len == c.call.value.len
    && i <= |sched| && (forall j :: 0 <= j < i ==> sched[j].Bytes? || sched[j].Ready?)
    && r.received == c.received + Arrived(sched[..i])
    && r.call.value.cnt == c.call.value.cnt + Completions(sched[..i])
    && var full := r.call.value.cnt == c.call.value.len;
    && (full ==> i == 0 || sched[i - 1].Ready?)
    && (!full && i < |sched| ==> sched[i].Cancelled? || sched[i].Broken? || (sched[i].Ready? && '\n' !in r.rx))
    && r.connected == (c.connected && (full || i == |sched| || !sched[i].Broken?))
  }

  /** What the event loop does, for every schedule. */
  lemma {:induction false} EventLoop(c: Client, sched: seq<Io>) returns (i: nat)
    requires c.call.Some? && !c.call.value.stopped
    ensures LoopEnds(c, sched, i, Reading(c, sched))
    decreases |sched|
  {
    if Waiting(c) && sched != [] && (sched[0].Bytes? || (sched[0].Ready? && '\n' in c.rx)) {
      var act := if sched[0].Bytes? then Arrive(sched[0].bytes) else ReadLine;
      StillRunning(c, act);
      StepCounts(c, act);
      var d := Apply(c, act);
      assert Reading(c, sched) == Reading(d, sched[1..]);
      hide Apply, Reading, LoopEnds;
      var k := EventLoop(d, sched[1..]);
      LoopStep(c, d, sched, k, Reading(d, sched[1..]));
      i := k + 1;
    } else {
      i := 0;
      LoopStops(c, sched);
    }
  }

  lemma {:induction false} LoopStops(c: Client, sched: seq<Io>)
    requires c.call.Some? && !c.call.value.stopped
    requires !(Waiting(c) && sched != [] && (sched[0].Bytes? || (sched[0].Ready? && '\n' in c.rx)))
    ensures LoopEnds(c, sched, 0, Reading(c, sched))
  {
    assert sched[..0] == [];
    assert Arrived([]) == "" && Completions([]) == 0 && c.received + "" == c.received;
  }

  lemma {:induction false} LoopStep(c: Client, d: Client, sched: seq<Io>, k: nat, r: Client)
    requires sched != [] && (sched[0].Bytes? || sched[0].Ready?) && LoopEnds(d, sched[1..], k, r)
    requires c.call.Some? && d.call.value.len == c.call.value.len && d.connected == c.connected
    requires d.call.value.cnt == c.call.value.cnt + (if sched[0].Ready? then 1 else 0) <= c.call.value.len
    requires d.received == c.received + (if sched[0].Bytes? then sched[0].bytes else "")
    requires sched[0].Bytes? ==> c.call.value.cnt < c.call.value.len
    ensures LoopEnds(c, sched, k + 1, r)
  {
    EventsCons(sched, k);
    var first, rest := if sched[0].Bytes? then sched[0].bytes else "", Arrived(sched[1..][..k]);
    Associative(c.received, first, rest);
    hide Arrived, Completions;
    assert forall j :: 1 <= j < k + 1 ==> sched[j] == sched[1..][j - 1];
    assert k + 1 < |sched| ==> sched[k + 1] == sched[1..][k];
    assert k > 0 ==> sched[k] == sched[1..][k - 1];
  }

  lemma {:induction false} EventsCons(sched: seq<Io>, k: nat)
    requires k < |sched|
    ensures Arrived(sched[..k + 1]) == (if sched[0].Bytes? then sched[0].bytes else "") + Arrived(sched[1..][..k])
    ensures Completions(sched[..k + 1]) == (if sched[0].Ready? then 1 else 0) + Completions(sched[1..][..k])
  {
    var s := sched[..k + 1];
    assert s[1..] == sched[1..][..k] && s[0] == sched[0];
  }

  lemma {:induction false} StepCounts(c: Client, a: Action)
    requires Waiting(c) && Enabled(c, a) && (a.Arrive? || a.ReadLine?)
    ensures var r := Apply(c, a);
            && r.call.Some? && r.call.value.len == c.call.value.len && r.connected == c.connected
            && r.call.value.cnt == c.call.value.cnt + (if a.ReadLine? then 1 else 0)
            && r.received == c.received + (if a.Arrive? then a.bytes else "")
  {
  }

  // ----- a call is made of the atomic actions

  /** Taking the actions in order, each enabled where it is taken, leads from one state to the other. */
  ghost predicate Leads(c: Client, acts: seq<Action>, r: Client)
    decreases |acts|
  {
    if acts == [] then c == r
    else Enabled(c, acts[0]) && Leads(Apply(c, acts[0]), acts[1..], r)
  }

  lemma {:induction false} LeadsCons(c: Client, a: Action, acts: seq<Action>, r: Client)
    requires Enabled(c, a) && Leads(Apply(c, a), acts, r)
    ensures Leads(c, [a] + acts, r)
  {
  }

  lemma {:induction false} LeadsConcat(a: Client, p: seq<Action>, b: Client, q: seq<Action>, c: Client)
    requires Leads(a, p, b) && Leads(b, q, c)
    ensures Leads(a, p + q, c)
    decreases |p|
  {
    if p == [] {
      assert p + q == q;
    } else {
      LeadsConcat(Apply(a, p[0]), p[1..], b, q, c);
      LeadsCons(a, p[0], p[1..] + q, c);
      assert [p[0]] + (p[1..] + q) == p + q;
    }
  }

  lemma {:induction false} ReadingIsActions(c: Client, sched: seq<Io>) returns (acts: seq<Action>)
    requires c.call.Some? && !c.call.value.stopped
    ensures Leads(c, acts, Reading(c, sched))
    decreases |sched|
  {
    hide TakeLine, Leads;
    var act := if !Waiting(c) || sched == [] then Stop(false) else
      match sched[0]
      case Bytes(b) => Arrive(b)
      case Ready => if '\n' in c.rx then ReadLine else Stop(false)
      case Cancelled => Stop(false)
      case Broken => Stop(true);
    var rest := [];
    if !act.Stop? {
      StillRunning(c, act);
      rest := ReadingIsActions(Apply(c, act), sched[1..]);
    } else {
      LeadsNowhere(Apply(c, act));
    }
    LeadsCons(c, act, rest, Reading(c, sched));
    acts := [act] + rest;
  }

  lemma {:induction false} LeadsNowhere(c: Client)
    ensures Leads(c, [], c)
  {
  }

  lemma {:induction false} PostingIsActions(c: Client) returns (acts: seq<Action>)
    ensures Leads(c, acts, Posting(c))
    decreases |c.rx|
  {
    if CanPost(c) {
      var rest := PostingIsActions(Apply(c, PostLine));
      LeadsCons(c, PostLine, rest, Posting(c));
      acts := [PostLine] + rest;
    } else {
      acts := [];
    }
  }

  /** A whole call takes only atomic actions, so what every interleaving of those keeps, every call keeps. */
  lemma {:induction false} CallIsActions(a: Client, mem: seq<byte>, len: nat, sched: seq<Io>)
      returns (acts: seq<Action>)
    requires Conserved(a) && Enabled(a, Begin(mem, len))
    ensures var r := Served(a, mem, len, sched);
            Enabled(r, Return) && acts != [] && acts[0] == Begin(mem, len) && Leads(a, acts, Apply(r, Return))
  {
    hide Conserved, Reading, Posting, Leads;
    ReceiveFraming(a, mem, len, sched);
    var b := Apply(a, Begin(mem, len));
    var mid, r := Reading(b, sched), Served(a, mem, len, sched);
    var p := ReadingIsActions(b, sched);
    var q := PostingIsActions(mid);
    LeadsConcat(b, p, mid, q, r);
    LeadsNowhere(Apply(r, Return));
    LeadsCons(r, Return, [], Apply(r, Return));
    LeadsConcat(b, p + q, r, [Return] + [], Apply(r, Return));
    LeadsCons(a, Begin(mem, len), p + q + ([Return] + []), Apply(r, Return));
    acts := [Begin(mem, len)] + (p + q + ([Return] + []));
  }

  // ----- connections

  lemma {:induction false} LeadsGrows(c: Client, acts: seq<Action>, r: Client)
    requires Conserved(c) && Leads(c, acts, r)
    ensures Conserved(r) && c.consumed <= r.consumed && c.received <= r.received
    decreases |acts|
  {
    hide Conserved, TakeLine;
    if acts != [] {
      ApplyConserved(c, acts[0]);
      ApplyGrows(c, acts[0]);
      LeadsGrows(Apply(c, acts[0]), acts[1..], r);
    }
  }

  lemma {:induction false} ApplyGrows(c: Client, a: Action)
    requires Enabled(c, a)
    ensures var r := Apply(c, a); c.consumed <= r.consumed && c.received <= r.received
  {
  }

  /** A dropped connection keeps its unread bytes, and the next one reads on behind them. Over every sequence of
      actions after a reconnect, the lines taken are the buffered ones followed by those of the new bytes
      exactly when no unfinished line was left over or they do not go beyond the buffered lines; otherwise
      the first new line comes with the left-over in front of it. */
  lemma {:induction false} ReconnectFraming(c: Client, acts: seq<Action>, r: Client)
    requires Conserved(c) && Enabled(c, Reconnect) && Leads(Apply(c, Reconnect), acts, r)
    ensures c.consumed <= r.consumed && c.received <= r.received
    ensures var taken, arrived := r.consumed[|c.consumed|..], r.received[|c.received|..];
            var buffered, stale := Lines(c.rx), Rest(c.rx);
            && (taken <= buffered + Lines(arrived) <==> stale == "" || |taken| <= |buffered|)
            && (|taken| > |buffered| ==> Lines(arrived) != [] && taken[|buffered|] == stale + Lines(arrived)[0])
  {
    var d := Apply(c, Reconnect);
    assert Conserved(d);
    LeadsGrows(d, acts, r);
    ConsumedSince(d, r);
    var taken, arrived := r.consumed[|c.consumed|..], r.received[|c.received|..];
    assert Stream(d, r) == c.rx + arrived;
    LinesExtend(c.rx, arrived);
    StaleFirst(Lines(c.rx), Rest(c.rx), arrived, taken, Lines(r.rx));
  }

  lemma {:induction false} StaleFirst(buffered: seq<string>, stale: string, arrived: string, taken: seq<string>,
                                      left: seq<string>)
    requires '\n' !in stale && buffered + Lines(stale + arrived) == taken + left
    ensures taken <= buffered + Lines(arrived) <==> stale == "" || |taken| <= |buffered|
    ensures |taken| > |buffered| ==> Lines(arrived) != [] && taken[|buffered|] == stale + Lines(arrived)[0]
  {
    var all, n := buffered + Lines(stale + arrived), |buffered|;
    assert taken <= all;
    if |taken| <= n {
      assert taken <= buffered;
    } else {
      FirstLine(stale, arrived);
      hide Lines;
      assert taken[n] == all[n] == Lines(stale + arrived)[0];
      if stale == "" {
        assert stale + arrived == arrived;
      } else {
        assert (buffered + Lines(arrived))[n] == Lines(arrived)[0] != taken[n];
      }
    }
  }

  lemma {:induction false} FirstLine(stale: string, arrived: string)
    requires '\n' !in stale
    ensures Lines(stale + arrived) != [] ==>
              Lines(arrived) != [] && Lines(stale + arrived)[0] == stale + Lines(arrived)[0]
  {
    FirstLineJoined(stale, arrived);
    var i := FindNewline(arrived);
    assert (stale + arrived)[..|stale| + i] == stale + arrived[..i];
  }

  /** Opening the device takes only actions of the client's system. */
  lemma {:induction false} OpenIsActions(c: Client, reachable: bool, written: bool) returns (acts: seq<Action>)
    requires c.call.None?
    ensures Leads(c, acts, c.(connected := (c.connected || reachable) && written))
    ensures forall i :: 0 <= i < |acts| ==> acts[i].Reconnect? || acts[i].Drop?
  {
    acts := [];
    var d := c;
    if !c.connected && reachable {
      acts, d := [Reconnect], Apply(c, Reconnect);
      LeadsNowhere(d);
      LeadsCons(c, Reconnect, [], d);
      assert [Reconnect] + [] == [Reconnect];
    }
    if d.connected && !written {
      LeadsNowhere(Apply(d, Drop));
      LeadsCons(d, Drop, [], Apply(d, Drop));
      LeadsConcat(c, acts, d, [Drop] + [], Apply(d, Drop));
      acts := acts + ([Drop] + []);
    }
  }

  /** A call that gets one byte before the connection breaks. */
  lemma {:induction false} BrokenCall(mem: seq<byte>)
    requires |mem| == OBJ_SIZE
    ensures Leads(Client("", true, None, [], "", []), [Begin(mem, 1), Arrive("V"), Stop(true), Return],
                  Client("V", false, None, [], "V", []))
  {
    var c0 := Client("", true, None, [], "", []);
    var c1 := Apply(c0, Begin(mem, 1));
    var c2 := Apply(c1, Arrive("V"));
    var c3 := Apply(c2, Stop(true));
    var c4 := Apply(c3, Return);
    assert c4 == Client("V", false, None, [], "V", []);
    LeadsFour(c0, Begin(mem, 1), c1, Arrive("V"), c2, Stop(true), c3, Return, c4);
  }

  /** A call that reads one line, refused, behind the left-over byte. */
  lemma {:induction false} RefusedCall(body: string, mem: seq<byte>)
    requires |mem| == OBJ_SIZE && '\n' !in body && Decoded("V" + body).None?
    ensures var c := Client("V", true, None, [], "V", []).(call := Some(Call(mem, 1, 0, false, false)));
            Leads(c, [Arrive(body + "\n"), ReadLine, Stop(false), Return],
                  Client("", true, None, ["V" + body], "V" + (body + "\n"), [mem]))
  {
    hide Decoded, Leads;
    var line := "V" + body;
    var c0 := Client("V", true, None, [], "V", []).(call := Some(Call(mem, 1, 0, false, false)));
    var c1 := Apply(c0, Arrive(body + "\n"));
    assert c1.rx == line + "\n" + "";
    FindNewlineAt(line, "");
    assert c1.rx[..|line|] == line && c1.rx[|line| + 1..] == "";
    var c2 := Apply(c1, ReadLine);
    var c3 := Apply(c2, Stop(false));
    var c4 := Apply(c3, Return);
    assert mem[OBJ_SIZE * 0..OBJ_SIZE * 1] == mem;
    assert Slot(mem, 0) == mem && Slots(mem, 1) == [mem];
    assert c4 == Client("", true, None, [line], "V" + (body + "\n"), [mem]);
    LeadsFour(c0, Arrive(body + "\n"), c1, ReadLine, c2, Stop(false), c3, Return, c4);
  }

  lemma {:induction false} LeadsFour(c0: Client, a1: Action, c1: Client, a2: Action, c2: Client, a3: Action, c3: Client,
                                     a4: Action, c4: Client)
    requires Enabled(c0, a1) && c1 == Apply(c0, a1) && Enabled(c1, a2) && c2 == Apply(c1, a2)
    requires Enabled(c2, a3) && c3 == Apply(c2, a3) && Enabled(c3, a4) && c4 == Apply(c3, a4)
    ensures Leads(c0, [a1, a2, a3, a4], c4)
  {
    LeadsNowhere(c4);
    hide Leads, Enabled, Apply;
    LeadsCons(c3, a4, [], c4);
    LeadsCons(c2, a3, [a4] + [], c4);
    LeadsCons(c1, a2, [a3] + ([a4] + []), c4);
    LeadsCons(c0, a1, [a2] + ([a3] + ([a4] + [])), c4);
    assert [a1] + ([a2] + ([a3] + ([a4] + []))) == [a1, a2, a3, a4];
  }

  /** One byte of a broken connection is enough: the first frame of the next one is refused, and its caller is
      told of an object that was not stored. */
  lemma {:induction false} CorruptedAfterReconnect(count: QWord, tick: QWord, obj: CanObj, mem: seq<byte>)
      returns (acts: seq<Action>, r: Client)
    requires |mem| == OBJ_SIZE
    ensures Leads(Client("", true, None, [], "", []), acts, r)
    ensures r.received == "V" + (FrameBody(count, tick, obj) + "\n")
    ensures r.consumed == ["V" + FrameBody(count, tick, obj)] && Decoded(r.consumed[0]).None?
    ensures r.returned == [mem]
  {
    var body := FrameBody(count, tick, obj);
    FrameText(count, tick, obj);
    StaleRefused(count, tick, obj);
    BrokenCall(mem);
    RefusedCall(body, mem);
    hide Leads, Decoded, FrameBody;
    var c0, c4 := Client("", true, None, [], "", []), Client("V", false, None, [], "V", []);
    r := Client("", true, None, ["V" + body], "V" + (body + "\n"), [mem]);
    var first := [Begin(mem, 1), Arrive("V"), Stop(true), Return];
    var rest := [Arrive(body + "\n"), ReadLine, Stop(false), Return];
    var c5 := Apply(c4, Reconnect);
    LeadsCons(c5, Begin(mem, 1), rest, r);
    LeadsCons(c4, Reconnect, [Begin(mem, 1)] + rest, r);
    acts := first + ([Reconnect] + ([Begin(mem, 1)] + rest));
    LeadsConcat(c0, first, c4, [Reconnect] + ([Begin(mem, 1)] + rest), r);
  }

  lemma {:induction false} StaleRefused(count: QWord, tick: QWord, obj: CanObj)
    ensures Decoded("V" + FrameBody(count, tick, obj)).None?
  {
    var line := "V" + FrameBody(count, tick, obj);
    assert line[1] == 'V';
    HeadStart(line, RECEIVE);
    HeadStart(line, TRANSMIT);
  }

  lemma {:induction false} HeadStart(line: string, head: string)
    requires |head| > 1
    ensures HeadMatches(line, head) ==> |line| > 1 && line[1] == head[1]
  {
    if HeadMatches(line, head) {
      assert line[1] == line[..|head|][1];
    }
  }

  // ----- the method

  lemma {:induction false} ReadingTurn(c: Client, sched: seq<Io>, i: nat)
    requires Waiting(c) && i < |sched|
    ensures Reading(c, sched[i..])
         == match sched[i]
            case Bytes(b) => Reading(Apply(c, Arrive(b)), sched[i + 1..])
            case Ready => if '\n' in c.rx then Reading(Apply(c, ReadLine), sched[i + 1..]) else Apply(c, Stop(false))
            case Cancelled => Apply(c, Stop(false))
            case Broken => Apply(c, Stop(true))
  {
  }

  lemma {:induction false} ReadingEnds(c: Client, sched: seq<Io>)
    requires c.call.Some? && !c.call.value.stopped
    ensures !Waiting(c) || sched == [] ==> Reading(c, sched) == Apply(c, Stop(false))
  {
  }

  /** Overrunning the memory cannot be undone. */
  lemma {:induction false} ReadingOverran(c: Client, sched: seq<Io>)
    requires c.call.Some? && !c.call.value.stopped && c.call.value.overran
    ensures Reading(c, sched).call.Some? && Reading(c, sched).call.value.overran
    decreases |sched|
  {
    if Waiting(c) && sched != [] {
      if sched[0].Bytes? {
        ReadingOverran(Apply(c, Arrive(sched[0].bytes)), sched[1..]);
      } else if sched[0].Ready? && '\n' in c.rx {
        ReadingOverran(Apply(c, ReadLine), sched[1..]);
      }
    }
  }

  lemma {:induction false} PostingOverran(c: Client)
    requires c.call.Some? && c.call.value.overran
    ensures Posting(c).call.Some? && Posting(c).call.value.overran
    decreases |c.rx|
  {
    if CanPost(c) {
      PostingOverran(Apply(c, PostLine));
    }
  }

  class ClientObject {
    var rx: string
    var connected: bool
    ghost var consumed: seq<string>
    ghost var received: string
    ghost var returned: seq<CanObj>

    ghost function View(call: Option<Call>): (c: Client)
      reads this
    {
      Client(rx, connected, call, consumed, received, returned)
    }

    /** VCI_OpenDevice: connects unless connected, then writes a command line; a failed write drops the connection.
        What is buffered stays. */
    method OpenDevice(reachable: bool, written: bool)
      modifies this
      ensures View(None) == old(View(None)).(connected := (old(connected) || reachable) && written)
    {
      if !connected {
        if !reachable {
          return;
        }
        connected := true;
      }
      if !written {
        connected := false;
      }
    }

    /** The handler's and the loop's common part: decode the first line into a slot and consume it, unless the
        store runs over the end of the memory. */
    method ProcessLine(objs: array<byte>, ghost len: nat, cnt: nat, ghost stopped: bool) returns (fault: bool)
      requires '\n' in rx && cnt < len && OBJ_SIZE * len <= objs.Length
      modifies this, objs
      ensures fault == TakeLine(old(View(Some(Call(objs[..], len, cnt, stopped, false))))).call.value.overran
      ensures !fault ==> connected == old(connected)
                         && View(Some(Call(objs[..], len, cnt + 1, stopped, false)))
                            == TakeLine(old(View(Some(Call(objs[..], len, cnt, stopped, false)))))
    {
      hide MemoryAfter, Fits, Decoded;
      LinesStep(rx);
      var pos := FindNewline(rx);
      var line := rx[..pos];
      var _, overran := LineProcess(line, objs, OBJ_SIZE * cnt);
      if overran {
        return true;
      }
      rx := rx[pos + 1..];
      consumed := consumed + [line];
      fault := false;
    }

    method ReadPhase(objs: array<byte>, len: nat, sched: seq<Io>) returns (cnt: nat, failed: bool, fault: bool)
      requires OBJ_SIZE * len <= objs.Length
      modifies this, objs
      ensures var goal := Reading(old(View(Some(Call(objs[..], len, 0, false, false)))), sched);
              && goal.call.Some? && fault == goal.call.value.overran
              && (!fault ==>
                    && cnt <= len && connected == old(connected)
                    && View(Some(Call(objs[..], len, cnt, true, false))).(connected := connected && !failed) == goal)
    {
      hide TakeLine, FindNewline, Reading;
      cnt, failed, fault := 0, false, false;
      ghost var goal := Reading(View(Some(Call(objs[..], len, 0, false, false))), sched);
      var i := 0;
      while cnt < len && i < |sched|
        invariant 0 <= i <= |sched| && cnt <= len
        invariant connected == old(connected)
        invariant Reading(View(Some(Call(objs[..], len, cnt, false, false))), sched[i..]) == goal
      {
        var e := sched[i];
        ghost var c := View(Some(Call(objs[..], len, cnt, false, false)));
        ReadingTurn(c, sched, i);
        i := i + 1;
        match e {
          case Bytes(b) =>
            rx := rx + b;
            received := received + b;
          case Ready =>
            if '\n' in rx {
              fault := ProcessLine(objs, len, cnt, false);
              if fault {
                ReadingOverran(TakeLine(c), sched[i..]);
                return;
              }
              cnt := cnt + 1;
            } else {
              break;
            }
          case Cancelled => break;
          case Broken =>
            failed := true;
            break;
        }
      }
      ReadingEnds(View(Some(Call(objs[..], len, cnt, false, false))), sched[i..]);
    }

    /** The loop of VCI_Receive over what is left in the buffer. */
    method PostPhase(objs: array<byte>, len: nat, cnt: nat) returns (r: nat, fault: bool)
      requires cnt <= len && OBJ_SIZE * len <= objs.Length
      modifies this, objs
      ensures var goal := Posting(old(View(Some(Call(objs[..], len, cnt, true, false)))));
              && goal.call.Some? && fault == goal.call.value.overran
              && (!fault ==> r <= len && View(Some(Call(objs[..], len, r, true, false))) == goal)
    {
      hide TakeLine;
      r, fault := cnt, false;
      ghost var goal := Posting(View(Some(Call(objs[..], len, r, true, false))));
      while connected && |rx| > 0 && r < len
        invariant r <= len
        invariant Posting(View(Some(Call(objs[..], len, r, true, false)))) == goal
        decreases |rx|
      {
        if FindNewline(rx) == |rx| {
          break;
        }
        ghost var c := View(Some(Call(objs[..], len, r, true, false)));
        fault := ProcessLine(objs, len, r, true);
        if fault {
          PostingOverran(TakeLine(c));
          return;
        }
        r := r + 1;
      }
    }

    /** VCI_Receive under a schedule of asio events. `fault` tells that a payload was stored past the end of the
        caller's memory, and then no more is promised. */
    method VciReceive(objs: array?<byte>, len: nat, sched: seq<Io>) returns (r: nat, fault: bool)
      requires objs != null ==> OBJ_SIZE * len <= objs.Length
      modifies this, objs
      ensures !old(connected) || objs == null || len == 0 ==>
                r == 0 && !fault && View(None) == old(View(None)) && (objs != null ==> objs[..] == old(objs[..]))
      ensures old(connected) && objs != null && len > 0 ==>
                var e := Served(old(View(None)), old(objs[..]), len, sched);
                && e.call.Some? && fault == e.call.value.overran
                && (!fault ==> Enabled(e, Return) && View(None) == Apply(e, Return)
                               && e.call.value.cnt == r && objs[..] == e.call.value.mem)
    {
      if !connected || objs == null || len == 0 {
        return 0, false;
      }
      hide TakeLine, Reading;
      ghost var begun := View(None);
      ghost var mem := objs[..];
      ghost var mid := Reading(Apply(begun, Begin(mem, len)), sched);
      var failed;
      r, failed, fault := ReadPhase(objs, len, sched);
      if fault {
        PostingOverran(mid);
        return;
      }
      if failed {
        connected := false;
      }
      r, fault := PostPhase(objs, len, r);
      if fault {
        return;
      }
      ghost var e := Served(begun, mem, len, sched);
      assert e == View(Some(Call(objs[..], len, r, true, false)));
      PostingStops(mid);
      returned := returned + Slots(objs[..], r);
    }
  }
}
