/**
  The text lines of the forwarding protocol: the frame lines the agent produces,
  the command lines the client sends, and line_process, which validates a line
  with two patterns and decodes its payload.
  */
module CanLine {
  import opened Basics
  import opened HexCodec

  type DWord = s: seq<byte> | |s| == 4 witness [0, 0, 0, 0]
  type QWord = s: seq<byte> | |s| == 8 witness [0, 0, 0, 0, 0, 0, 0, 0]

  const OBJ_SIZE: nat := 24

  /** A VCI_CAN_OBJ as it lies in memory. */
  type CanObj = s: seq<byte> | |s| == 24 witness seq(24, _ => 0)
  type InitConfig = s: seq<byte> | |s| == 16 witness seq(16, _ => 0)
  type ErrInfo = s: seq<byte> | |s| == 8 witness [0, 0, 0, 0, 0, 0, 0, 0]

  const RECEIVE: CText := "VCI_Receive,"
  const TRANSMIT: CText := "VCI_Transmit,"

  // ----- the encoder's call sites

  /** Every call of bin2hex_fast, with the objects whose addresses it passes. */
  datatype Command =
    | OpenDevice(devType: DWord, devInd: DWord, reserved: DWord)
    | CloseDevice(devType: DWord, devInd: DWord)
    | InitCan(devType: DWord, devInd: DWord, canInd: DWord, config: InitConfig)
    | ReadErrInfo(devType: DWord, devInd: DWord, canInd: DWord, err: ErrInfo)
    | ClearBuffer(devType: DWord, devInd: DWord, canInd: DWord)
    | StartCan(devType: DWord, devInd: DWord, canInd: DWord)
    | ResetCan(devType: DWord, devInd: DWord, canInd: DWord)
    | Transmit(devType: DWord, devInd: DWord, canInd: DWord, obj: CanObj)
    | Frame(count: QWord, tick: QWord, obj: CanObj)

  function Fields(c: Command): (r: seq<Field>) {
    match c
    case OpenDevice(t, d, r) => [Text("VCI_OpenDevice,"), Raw(t), Raw(d), Raw(r), Text("\n")]
    case CloseDevice(t, d) => [Text("VCI_CloseDevice,"), Raw(t), Raw(d), Text("\n")]
    case InitCan(t, d, i, cfg) => [Text("VCI_InitCAN,"), Raw(t), Raw(d), Raw(i), Raw(cfg), Text("\n")]
    case ReadErrInfo(t, d, i, e) => [Text("VCI_ReadErrInfo,"), Raw(t), Raw(d), Raw(i), Raw(e), Text("\n")]
    case ClearBuffer(t, d, i) => [Text("VCI_ClearBuffer,"), Raw(t), Raw(d), Raw(i), Text("\n")]
    case StartCan(t, d, i) => [Text("VCI_StartCAN,"), Raw(t), Raw(d), Raw(i), Text("\n")]
    case ResetCan(t, d, i) => [Text("VCI_ResetCAN,"), Raw(t), Raw(d), Raw(i), Text("\n")]
    case Transmit(t, d, i, o) => [Text(TRANSMIT), Raw(t), Raw(d), Raw(i), Raw(o), Text("\n")]
    case Frame(n, t, o) => [Text(RECEIVE), Raw(n), Raw(t), Raw(o), Text("\n")]
  }

  /** The size of the character array each call site passes. */
  function BufferSize(c: Command): (n: nat) {
    match c
    case OpenDevice(_, _, _) => 128
    case CloseDevice(_, _) => 128
    case _ => 256
  }

  function CommandText(c: Command): (r: string) {
    Rendered(Fields(c))
  }

  lemma {:induction false} RenderedFrom(fields: seq<Field>, i: nat)
    requires i < |fields|
    ensures Rendered(fields[i..]) == FieldText(fields[i]) + Rendered(fields[i + 1..])
  {
  }

  lemma {:induction false} Rendered4(f: seq<Field>, i: nat)
    requires |f| == i + 4
    ensures Rendered(f[i..]) == FieldText(f[i]) + (FieldText(f[i + 1]) + (FieldText(f[i + 2]) + FieldText(f[i + 3])))
  {
    RenderedFrom(f, i);
    RenderedFrom(f, i + 1);
    RenderedFrom(f, i + 2);
    RenderedFrom(f, i + 3);
  }

  lemma {:induction false} Rendered5(f: seq<Field>)
    requires |f| == 5
    ensures Rendered(f)
         == FieldText(f[0]) + (FieldText(f[1]) + (FieldText(f[2]) + (FieldText(f[3]) + FieldText(f[4]))))
  {
    assert f[0..] == f;
    RenderedFrom(f, 0);
    Rendered4(f, 1);
  }

  lemma {:induction false} Rendered6(f: seq<Field>)
    requires |f| == 6
    ensures Rendered(f)
         == FieldText(f[0])
            + (FieldText(f[1]) + (FieldText(f[2]) + (FieldText(f[3]) + (FieldText(f[4]) + FieldText(f[5])))))
  {
    assert f[0..] == f;
    RenderedFrom(f, 0);
    RenderedFrom(f, 1);
    Rendered4(f, 2);
  }

  /** The text of every command and its NUL fit the buffer of the call site. */
  lemma {:induction false} CallSitesFit(c: Command)
    ensures |CommandText(c)| + 1 <= BufferSize(c) == if c.OpenDevice? || c.CloseDevice? then 128 else 256
  {
    var f := Fields(c);
    if |f| == 4 {
      assert f[0..] == f;
      Rendered4(f, 0);
    } else if |f| == 5 {
      Rendered5(f);
    } else {
      Rendered6(f);
    }
  }

  // ----- reading a command line

  /** The fields of the given sizes at the front of a text of hexadecimal digits, up to its newline. */
  function ReadFields(s: string, sizes: seq<nat>): (r: Option<seq<seq<byte>>>)
    ensures r.Some? ==> |r.value| == |sizes| && forall i :: 0 <= i < |sizes| ==> |r.value[i]| == sizes[i]
  {
    if sizes == [] then if s == "\n" then Some([]) else None
    else
      var n := 2 * sizes[0];
      if |s| < n || !IsHexText(s[..n]) then None
      else
        match ReadFields(s[n..], sizes[1..])
        case None => None
        case Some(rest) => Some([HexValue(s[..n])] + rest)
  }

  datatype Kind = Opening | Closing | Initialising | ErrorQuery | Clearing | Starting | Resetting | Sending | Receiving

  function KindOf(name: string): (r: Option<Kind>) {
    if name == "VCI_OpenDevice" then Some(Opening)
    else if name == "VCI_CloseDevice" then Some(Closing)
    else if name == "VCI_InitCAN" then Some(Initialising)
    else if name == "VCI_ReadErrInfo" then Some(ErrorQuery)
    else if name == "VCI_ClearBuffer" then Some(Clearing)
    else if name == "VCI_StartCAN" then Some(Starting)
    else if name == "VCI_ResetCAN" then Some(Resetting)
    else if name == "VCI_Transmit" then Some(Sending)
    else if name == "VCI_Receive" then Some(Receiving)
    else None
  }

  /** A DWORD has four bytes, a configuration sixteen, an error record eight and an object twenty-four; a frame line
      carries two 64-bit numbers. */
  function Sizes(k: Kind): (r: seq<nat>) {
    match k
    case Closing => [4, 4]
    case Initialising => [4, 4, 4, 16]
    case ErrorQuery => [4, 4, 4, 8]
    case Sending => [4, 4, 4, 24]
    case Receiving => [8, 8, 24]
    case _ => [4, 4, 4]
  }

  /** The command of a kind with the given arguments, in the order of the call. */
  function Built(k: Kind, f: seq<seq<byte>>): (r: Command)
    requires |f| == |Sizes(k)| && forall i :: 0 <= i < |f| ==> |f[i]| == Sizes(k)[i]
  {
    match k
    case Opening => OpenDevice(f[0], f[1], f[2])
    case Closing => CloseDevice(f[0], f[1])
    case Initialising => InitCan(f[0], f[1], f[2], f[3])
    case ErrorQuery => ReadErrInfo(f[0], f[1], f[2], f[3])
    case Clearing => ClearBuffer(f[0], f[1], f[2])
    case Starting => StartCan(f[0], f[1], f[2])
    case Resetting => ResetCan(f[0], f[1], f[2])
    case Sending => Transmit(f[0], f[1], f[2], f[3])
    case Receiving => Frame(f[0], f[1], f[2])
  }

  /** What a command line says: the name before the comma, then the arguments. */
  function ReadCommand(text: string): (r: Option<Command>) {
    var name := UpTo(text, ',');
    if |name| == |text| || KindOf(name).None? then None
    else
      var k := KindOf(name).value;
      var f := ReadFields(text[|name| + 1..], Sizes(k));
      if f.Some? then Some(Built(k, f.value)) else None
  }

  lemma {:induction false} ReadOne(b: seq<byte>, rest: string, sizes: seq<nat>)
    requires sizes != [] && sizes[0] == |b| && ReadFields(rest, sizes[1..]).Some?
    ensures ReadFields(HexText(b) + rest, sizes) == Some([b] + ReadFields(rest, sizes[1..]).value)
  {
    DecodeEncode(b);
    var s := HexText(b) + rest;
    assert s[..2 * |b|] == HexText(b) && s[2 * |b|..] == rest;
    hide HexText, HexValue, IsHexText;
  }

  /** The arguments in hexadecimal and the newline. */
  function ArgumentText(b: seq<seq<byte>>): (r: string) {
    if b == [] then "\n" else HexText(b[0]) + ArgumentText(b[1..])
  }

  lemma {:induction false} ArgumentsReadBack(b: seq<seq<byte>>, sizes: seq<nat>)
    requires |sizes| == |b| && forall i :: 0 <= i < |b| ==> sizes[i] == |b[i]|
    ensures ReadFields(ArgumentText(b), sizes) == Some(b)
    decreases |b|
  {
    if b != [] {
      ArgumentsReadBack(b[1..], sizes[1..]);
      hide ReadFields, HexText;
      ReadOne(b[0], ArgumentText(b[1..]), sizes);
      assert [b[0]] + b[1..] == b;
    }
  }

  lemma {:induction false} ArgumentsRendered(f: seq<Field>, b: seq<seq<byte>>, i: nat)
    requires |f| == |b| + 2 && f[|b| + 1] == Text("\n") && forall i :: 0 <= i < |b| ==> f[i + 1] == Raw(b[i])
    requires 1 <= i <= |b| + 1
    ensures Rendered(f[i..]) == ArgumentText(b[i - 1..])
    decreases |f| - i
  {
    RenderedFrom(f, i);
    hide HexText;
    if i == |b| + 1 {
      assert Rendered(f[i + 1..]) == "";
      assert b[i - 1..] == [];
    } else {
      ArgumentsRendered(f, b, i + 1);
      hide Rendered;
      assert b[i - 1..][0] == b[i - 1] && b[i - 1..][1..] == b[i..];
      assert f[i - 1 + 1] == Raw(b[i - 1]);
    }
  }

  /** A name and its comma, which the text begins with. */
  lemma {:induction false} NameBefore(name: string, rest: string)
    requires ',' !in name
    ensures var text := (name + ",") + rest;
            UpTo(text, ',') == name && |name| < |text| && text[|name| + 1..] == rest
  {
    assert (name + ",") + rest == name + ([','] + rest);
    UpToIn(name, ',', rest);
  }

  /** The kind of a command and its arguments in order. */
  function Kinded(c: Command): (r: (Kind, seq<seq<byte>>))
    ensures |r.1| == |Sizes(r.0)| && (forall i :: 0 <= i < |r.1| ==> |r.1[i]| == Sizes(r.0)[i]) && Built(r.0, r.1) == c
  {
    match c
    case OpenDevice(t, d, r) => (Opening, [t, d, r])
    case CloseDevice(t, d) => (Closing, [t, d])
    case InitCan(t, d, i, x) => (Initialising, [t, d, i, x])
    case ReadErrInfo(t, d, i, x) => (ErrorQuery, [t, d, i, x])
    case ClearBuffer(t, d, i) => (Clearing, [t, d, i])
    case StartCan(t, d, i) => (Starting, [t, d, i])
    case ResetCan(t, d, i) => (Resetting, [t, d, i])
    case Transmit(t, d, i, x) => (Sending, [t, d, i, x])
    case Frame(n, t, o) => (Receiving, [n, t, o])
  }

  /** The text of a command is a name of its kind, a comma, its arguments and a newline. */
  lemma {:induction false} HeadOf(c: Command) returns (name: string)
    ensures ',' !in name && KindOf(name) == Some(Kinded(c).0)
    ensures var f := Fields(c); f != [] && f[0].Text? && f[0].text == name + ","
  {
    name := match c
      case OpenDevice(_, _, _) => "VCI_OpenDevice"
      case CloseDevice(_, _) => "VCI_CloseDevice"
      case InitCan(_, _, _, _) => "VCI_InitCAN"
      case ReadErrInfo(_, _, _, _) => "VCI_ReadErrInfo"
      case ClearBuffer(_, _, _) => "VCI_ClearBuffer"
      case StartCan(_, _, _) => "VCI_StartCAN"
      case ResetCan(_, _, _) => "VCI_ResetCAN"
      case Transmit(_, _, _, _) => "VCI_Transmit"
      case Frame(_, _, _) => "VCI_Receive";
    assert name[4] == if c.OpenDevice? then 'O' else if c.CloseDevice? || c.ClearBuffer? then 'C'
                      else if c.InitCan? then 'I' else if c.StartCan? then 'S' else if c.Transmit? then 'T' else 'R';
    assert c.CloseDevice? ==> name[6] == 'o';
    assert c.ClearBuffer? ==> name[6] == 'e';
  }

  lemma {:induction false} ArgumentsOf(c: Command)
    ensures var f, b := Fields(c), Kinded(c).1;
            && |f| == |b| + 2 && f[|b| + 1] == Text("\n")
            && forall i :: 0 <= i < |b| ==> f[i + 1] == Raw(b[i])
  {
  }

  /** Every line the encoder makes says just the command it was made for. */
  lemma {:induction false} CommandReadBack(c: Command)
    ensures ReadCommand(CommandText(c)) == Some(c)
  {
    var name := HeadOf(c);
    ArgumentsOf(c);
    var f, b, k := Fields(c), Kinded(c).1, Kinded(c).0;
    ArgumentsReadBack(b, Sizes(k));
    ArgumentsRendered(f, b, 1);
    hide Rendered, ReadFields, HexText, KindOf, Sizes, Built, ArgumentText, Fields, Kinded, UpTo;
    assert f[0..] == f && b[0..] == b;
    RenderedFrom(f, 0);
    NameBefore(name, ArgumentText(b));
  }

  /** A call site: encode into its own buffer; the first n characters are the command, then a NUL. */
  method Encode(c: Command) returns (buff: array<char>, n: nat)
    ensures fresh(buff) && buff.Length == if c.OpenDevice? || c.CloseDevice? then 128 else 256
    ensures n == |CommandText(c)| < buff.Length
    ensures buff[..n] == CommandText(c) && buff[n] == '\0' && ReadCommand(buff[..n]) == Some(c)
  {
    CallSitesFit(c);
    CommandReadBack(c);
    hide ReadCommand, Fields, Rendered;
    buff := new char[BufferSize(c)];
    n := Bin2HexFast(buff, 0, Fields(c));
    assert buff[0..n + 1] == CommandText(c) + ['\0'];
    assert buff[..n] == buff[0..n + 1][..n];
    assert buff[n] == buff[0..n + 1][n];
  }

  // ----- the decoder of one line

  predicate HeadMatches(line: string, head: string) {
    |head| + 32 <= |line| && line[..|head|] == head && IsHexText(line[|head|..|head| + 32])
  }

  /** What the receive pattern leaves after its match: a header and 32 hexadecimal digits. */
  function AfterHead(line: string): (r: Option<string>)
  {
    if HeadMatches(line, RECEIVE) then Some(line[|RECEIVE| + 32..])
    else if HeadMatches(line, TRANSMIT) then Some(line[|TRANSMIT| + 32..])
    else None
  }

  /** The bytes line_process stores for `line`, or None when it refuses the line. */
  function Decoded(line: string): (r: Option<seq<byte>>)
    ensures r.Some? ==> |r.value| >= OBJ_SIZE
  {
    match AfterHead(line)
    case None => None
    case Some(pl) =>
      if pl == "" || |pl| % 2 != 0 || !IsHexText(pl) || |pl| < 2 * OBJ_SIZE then None
      else Some(HexValue(pl))
  }

  /** The lines the receive pattern, the payload pattern and the length test let through. */
  ghost predicate Grammar(line: string, head: string, digits: string, payload: string) {
    && line == head + digits + payload && (head == RECEIVE || head == TRANSMIT)
    && |digits| == 32 && IsHexText(digits)
    && |payload| >= 48 && |payload| % 2 == 0 && IsHexText(payload)
  }

  /** A line is accepted exactly when it is a header, 32 digits and a payload of at least 48, and then the payload
      is what is decoded. */
  lemma {:induction false} DecodedIff(line: string)
    ensures Decoded(line).Some? <==> exists head, digits, payload :: Grammar(line, head, digits, payload)
    ensures forall head, digits, payload ::
              Grammar(line, head, digits, payload) ==> Decoded(line) == Some(HexValue(payload))
  {
    forall head, digits, payload | Grammar(line, head, digits, payload)
      ensures Decoded(line) == Some(HexValue(payload))
    {
      GrammarDecoded(line, head, digits, payload);
    }
    if Decoded(line).Some? {
      var head := if HeadMatches(line, RECEIVE) then RECEIVE else TRANSMIT;
      var n := |head|;
      assert line == line[..n] + line[n..n + 32] + line[n + 32..];
      assert Grammar(line, head, line[n..n + 32], line[n + 32..]);
    }
  }

  lemma {:induction false} GrammarDecoded(line: string, head: string, digits: string, payload: string)
    requires Grammar(line, head, digits, payload)
    ensures Decoded(line) == Some(HexValue(payload))
  {
    var n := |head|;
    assert line[..n] == head && line[n..n + 32] == digits && line[n + 32..] == payload;
    HeadsDiffer(line);
  }

  /** No line carries both headers. */
  lemma {:induction false} HeadsDiffer(line: string)
    ensures !(HeadMatches(line, RECEIVE) && HeadMatches(line, TRANSMIT))
  {
    assert RECEIVE[4] == 'R' && TRANSMIT[4] == 'T';
    assert HeadMatches(line, RECEIVE) ==> line[4] == line[..|RECEIVE|][4];
    assert HeadMatches(line, TRANSMIT) ==> line[4] == line[..|TRANSMIT|][4];
  }

  /** The payload, when there is one, is exactly one object. */
  predicate OneObject(line: string) {
    Decoded(line).Some? ==> |Decoded(line).value| == OBJ_SIZE
  }

  /** The caller's memory after `bytes` were stored from `at` on, as far as they lie within it. */
  function Overlay(mem: seq<byte>, at: nat, bytes: seq<byte>): (r: seq<byte>)
    ensures |r| == |mem|
    ensures forall k :: 0 <= k < |mem| ==> r[k] == if at <= k < at + |bytes| then bytes[k - at] else mem[k]
  {
    seq(|mem|, k requires 0 <= k < |mem| => if at <= k < at + |bytes| then bytes[k - at] else mem[k])
  }

  /** The memory after line_process stored the line at `at`: a refused line leaves it alone. */
  function MemoryAfter(line: string, mem: seq<byte>, at: nat): (r: seq<byte>)
    ensures |r| == |mem|
  {
    if Decoded(line).Some? then Overlay(mem, at, Decoded(line).value) else mem
  }

  /** The payload, if there is one, ends within the caller's memory. */
  predicate Fits(line: string, size: nat, at: nat) {
    Decoded(line).Some? ==> at + |Decoded(line).value| <= size
  }

  /** line_process: 0 and the whole payload stored, or -1 and nothing changed. Nothing bounds the store: `fault`
      tells that it ran over the end of the caller's memory, and then no more is promised. */
  method LineProcess(line: string, dst: array<byte>, at: nat) returns (rc: int, fault: bool)
    modifies dst
    ensures fault == !Fits(line, dst.Length, at)
    ensures !fault ==> rc == if Decoded(line).Some? then 0 else -1
    ensures !fault ==> dst[..] == MemoryAfter(line, old(dst[..]), at)
  {
    rc, fault := -1, false;
    var rest := AfterHead(line);
    if rest.None? || rest.value == "" {
      return;
    }
    var pl := rest.value;
    if |pl| % 2 != 0 || !IsHexText(pl) || |pl| < 2 * OBJ_SIZE {
      return;
    }
    if at + |pl| / 2 > dst.Length {
      fault := true;
      return;
    }
    ghost var mem := dst[..];
    assert Decoded(line) == Some(HexValue(pl)) && LooseValue(pl) == HexValue(pl);
    hide *;
    HexDigitsInTable(pl);
    HexStringToBinFastest(pl, dst, at);
    StoredIsMemoryAfter(line, mem, at);
    rc := 0;
  }

  lemma {:induction false} HexDigitsInTable(s: string)
    requires IsHexText(s)
    ensures forall i :: 0 <= i < |s| ==> s[i] as int < 103
  {
  }

  lemma {:induction false} StoredIsMemoryAfter(line: string, mem: seq<byte>, at: nat)
    requires Decoded(line).Some? && at + |Decoded(line).value| <= |mem|
    ensures var bytes := Decoded(line).value;
            Fits(line, |mem|, at) && mem[..at] + bytes + mem[at + |bytes|..] == MemoryAfter(line, mem, at)
  {
    hide Decoded, Overlay;
    StoredIsOverlay(mem, at, Decoded(line).value);
  }

  lemma {:induction false} StoredIsOverlay(mem: seq<byte>, at: nat, bytes: seq<byte>)
    requires at + |bytes| <= |mem|
    ensures mem[..at] + bytes + mem[at + |bytes|..] == Overlay(mem, at, bytes)
  {
    var stored := mem[..at] + bytes + mem[at + |bytes|..];
    assert forall k :: at + |bytes| <= k < |mem| ==> stored[k] == mem[at + |bytes|..][k - (at + |bytes|)];
  }

  // ----- the caller's slots

  /** Slot `i` of the caller's array. */
  function Slot(mem: seq<byte>, i: nat): (r: CanObj)
    requires OBJ_SIZE * (i + 1) <= |mem|
  {
    mem[OBJ_SIZE * i..OBJ_SIZE * (i + 1)]
  }

  /** The first `n` slots. */
  function Slots(mem: seq<byte>, n: nat): (r: seq<CanObj>)
    requires OBJ_SIZE * n <= |mem|
    ensures |r| == n && forall i :: 0 <= i < n ==> r[i] == Slot(mem, i)
  {
    seq(n, i requires 0 <= i < n => Slot(mem, i))
  }

  /** A line stored at slot `i` leaves the slots after it alone, whatever they hold, exactly when its payload is
      no longer than one object. */
  lemma {:induction false} SpillIff(line: string, i: nat, size: nat)
    requires OBJ_SIZE * (i + 1) < size
    ensures (forall mem: seq<byte> :: |mem| == size ==>
               MemoryAfter(line, mem, OBJ_SIZE * i)[OBJ_SIZE * (i + 1)..] == mem[OBJ_SIZE * (i + 1)..])
       <==> OneObject(line)
  {
    var end := OBJ_SIZE * (i + 1);
    if !OneObject(line) {
      var bytes := Decoded(line).value;
      var other: byte := 255 - bytes[OBJ_SIZE];
      var mem: seq<byte> := seq(size, _ => other);
      assert MemoryAfter(line, mem, OBJ_SIZE * i)[end] == bytes[OBJ_SIZE] != mem[end];
      assert MemoryAfter(line, mem, OBJ_SIZE * i)[end..][0] != mem[end..][0];
    }
  }

  /** The memory after the lines were stored in order, each at the slot of its number. */
  function Poured(mem: seq<byte>, lines: seq<string>): (r: seq<byte>)
    ensures |r| == |mem|
  {
    if lines == [] then mem
    else
      var n := |lines| - 1;
      MemoryAfter(lines[n], Poured(mem, lines[..n]), OBJ_SIZE * n)
  }

  /** The payload of line `j`, stored at slot `j`, reaches into slot `i`. */
  predicate Reaches(lines: seq<string>, j: nat, i: nat) {
    && j <= i && j < |lines| && Decoded(lines[j]).Some?
    && OBJ_SIZE * j + |Decoded(lines[j]).value| > OBJ_SIZE * i
  }

  /** An accepted line's slot ends up with the first bytes of its payload, whatever came before or after. */
  lemma {:induction false} AcceptedSlot(mem: seq<byte>, lines: seq<string>, i: nat)
    requires i < |lines| && Decoded(lines[i]).Some? && OBJ_SIZE * (i + 1) <= |mem|
    ensures Slot(Poured(mem, lines), i) == Decoded(lines[i]).value[..OBJ_SIZE]
    decreases |lines|
  {
    hide Decoded;
    var n := |lines| - 1;
    var before := Poured(mem, lines[..n]);
    if i < n {
      AcceptedSlot(mem, lines[..n], i);
      hide Poured;
      assert Slot(MemoryAfter(lines[n], before, OBJ_SIZE * n), i) == Slot(before, i);
    }
  }

  /** A byte in slot `i` that no line reaches stays as it was. */
  lemma {:induction false} UnreachedByte(mem: seq<byte>, lines: seq<string>, i: nat, p: nat)
    requires OBJ_SIZE * i <= p < OBJ_SIZE * (i + 1) && p < |mem| && forall j: nat :: !Reaches(lines, j, i)
    ensures Poured(mem, lines)[p] == mem[p]
    decreases |lines|
  {
    if lines != [] {
      var n := |lines| - 1;
      var init := lines[..n];
      forall j: nat ensures !Reaches(init, j, i) {
        assert !Reaches(lines, j, i);
      }
      UnreachedByte(mem, init, i, p);
      assert !Reaches(lines, n, i);
    }
  }

  /** The first byte of a slot some line reaches no longer depends on what was there. */
  lemma {:induction false} ReachedByte(m1: seq<byte>, m2: seq<byte>, lines: seq<string>, j: nat, i: nat)
    requires Reaches(lines, j, i) && OBJ_SIZE * i < |m1| == |m2|
    ensures Poured(m1, lines)[OBJ_SIZE * i] == Poured(m2, lines)[OBJ_SIZE * i]
    decreases |lines|
  {
    var n := |lines| - 1;
    if j < n {
      assert Reaches(lines[..n], j, i);
      ReachedByte(m1, m2, lines[..n], j, i);
    }
  }

  /** A slot keeps its content, whatever that is, exactly when no accepted line reaches into it. */
  lemma {:induction false} SlotKeptIff(lines: seq<string>, i: nat, size: nat)
    requires OBJ_SIZE * (i + 1) <= size
    ensures (forall mem: seq<byte> :: |mem| == size ==> Slot(Poured(mem, lines), i) == Slot(mem, i))
       <==> forall j: nat :: !Reaches(lines, j, i)
  {
    hide Poured, Reaches;
    var p := OBJ_SIZE * i;
    if j: nat :| Reaches(lines, j, i) {
      var zeros: seq<byte> := seq(size, _ => 0);
      var other: byte := 255 - Poured(zeros, lines)[p];
      var mem: seq<byte> := seq(size, _ => other);
      ReachedByte(zeros, mem, lines, j, i);
      assert Slot(Poured(mem, lines), i)[0] != Slot(mem, i)[0];
    } else {
      forall mem: seq<byte> | |mem| == size ensures Slot(Poured(mem, lines), i) == Slot(mem, i) {
        SlotKept(mem, lines, i);
      }
    }
  }

  lemma {:induction false} SlotKept(mem: seq<byte>, lines: seq<string>, i: nat)
    requires OBJ_SIZE * (i + 1) <= |mem| && forall j: nat :: !Reaches(lines, j, i)
    ensures Slot(Poured(mem, lines), i) == Slot(mem, i)
  {
    forall p | OBJ_SIZE * i <= p < OBJ_SIZE * (i + 1) ensures Poured(mem, lines)[p] == mem[p] {
      UnreachedByte(mem, lines, i, p);
    }
  }

  /** With one object a line, slot `i` holds the decoding of line `i`, or what it held if that was refused. */
  lemma {:induction false} OneObjectSlot(mem: seq<byte>, lines: seq<string>, i: nat)
    requires OBJ_SIZE * (i + 1) <= |mem| && forall j :: 0 <= j < |lines| ==> OneObject(lines[j])
    ensures Slot(Poured(mem, lines), i)
         == if i < |lines| && Decoded(lines[i]).Some? then Decoded(lines[i]).value else Slot(mem, i)
  {
    if i < |lines| && Decoded(lines[i]).Some? {
      AcceptedSlot(mem, lines, i);
    } else {
      SlotKept(mem, lines, i);
    }
  }

  /** A payload of two objects fills the slot of a refused line behind it. */
  lemma {:induction false} SpillExample(digits: string, payload: string, mem: seq<byte>)
    requires |digits| == 32 && IsHexText(digits) && |payload| == 96 && IsHexText(payload) && |mem| >= 48
    ensures var lines := [RECEIVE + digits + payload, "x"];
            && Decoded(lines[0]) == Some(HexValue(payload)) && Decoded(lines[1]) == None
            && Slot(Poured(mem, lines), 1) == HexValue(payload)[24..]
  {
    var line := RECEIVE + digits + payload;
    var lines := [line, "x"];
    assert Grammar(line, RECEIVE, digits, payload);
    GrammarDecoded(line, RECEIVE, digits, payload);
    hide Decoded, HexValue;
    assert lines[..1] == [line] && [line][..0] == [];
    assert Poured(mem, []) == mem;
    assert Poured(mem, [line]) == Overlay(mem, 0, HexValue(payload));
    assert Decoded("x").None? by { ShortRefused("x"); }
    assert Poured(mem, lines) == Overlay(mem, 0, HexValue(payload));
  }

  lemma {:induction false} ShortRefused(line: string)
    requires |line| < 44
    ensures Decoded(line).None?
  {
  }

  // ----- frame lines

  lemma {:induction false} HexTextNoControl(b: seq<byte>)
    ensures '\n' !in HexText(b)
  {
    HexTextDigits(b);
    var t := HexText(b);
    forall i | 0 <= i < |t| ensures t[i] != '\n' {
      assert IsHexDigit(t[i]);
    }
  }

  /** A frame line without its newline. */
  function FrameBody(count: QWord, tick: QWord, obj: CanObj): (r: string)
    ensures |r| == 92
  {
    RECEIVE + (HexText(count) + (HexText(tick) + HexText(obj)))
  }

  lemma {:induction false} FrameText(count: QWord, tick: QWord, obj: CanObj)
    ensures CommandText(Frame(count, tick, obj)) == FrameBody(count, tick, obj) + "\n"
    ensures '\n' !in FrameBody(count, tick, obj)
  {
    Rendered5(Fields(Frame(count, tick, obj)));
    HexTextNoControl(count);
    HexTextNoControl(tick);
    HexTextNoControl(obj);
  }

  /** line_process restores the object of every line the agent produces. */
  lemma {:induction false} FrameRoundTrip(count: QWord, tick: QWord, obj: CanObj)
    ensures Decoded(FrameBody(count, tick, obj)) == Some(obj)
  {
    var line := FrameBody(count, tick, obj);
    assert |RECEIVE| == 12;
    assert line[..12] == RECEIVE;
    assert line[12..44] == HexText(count) + HexText(tick);
    assert line[44..] == HexText(obj);
    HexTextDigits(count);
    HexTextDigits(tick);
    DecodeEncode(obj);
  }

  /** The client's own VCI_Transmit lines are refused: only 24 digits precede the object, so 40 remain. */
  lemma {:induction false} TransmitRefused(t: DWord, d: DWord, i: DWord, obj: CanObj)
    ensures exists body :: CommandText(Transmit(t, d, i, obj)) == body + "\n" && Decoded(body).None?
  {
    Rendered6(Fields(Transmit(t, d, i, obj)));
    var body := TRANSMIT + (HexText(t) + (HexText(d) + (HexText(i) + HexText(obj))));
    assert |TRANSMIT| == 13 && |RECEIVE| == 12;
    assert TRANSMIT[4] == 'T' && RECEIVE[4] == 'R';
    assert body[4] == 'T';
    assert body[..12][4] == 'T';
    assert CommandText(Transmit(t, d, i, obj)) == body + "\n";
  }
}
