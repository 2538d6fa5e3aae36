# libcontrolcan2: a Dafny model

A model of the CAN frame forwarding system of libcontrolcan2 and of the algorithms it vendors, with proofs of what they promise.

The repository forwards CAN frames over TCP. An agent reads frames from a CAN adapter, writes each as one text line (`VCI_Receive,`, a counter, a tick and the 24 object bytes in hexadecimal), and hands the line to every connected session. A session has a bounded queue that drops when it is full and a timer/write machine that sends the queue in batches. A client library reframes the byte stream, however TCP cuts it up, and decodes lines into the caller's array. Around this core the repository carries an INI reader for its configuration, glog and googletest.

`dafny verify dfyconfig.toml` checks everything.

| file | what it models |
|---|---|
| Basics.dfy | definitions the other files share |
| HexCodec.dfy | the variadic hexadecimal encoder and the two table-driven decoders |
| CanLine.dfy | the protocol's lines: every encoder call site, and `line_process` |
| Numerals.dfy | what a string of digits denotes in a base |
| TextLines.dfy | newline-terminated lines of a text, shared by the stream components |
| AgentSession.dfy | one session: the class with its handlers, and the transition system of its steps |
| NetClient.dfy | `VCI_Receive`: the atomic actions, whole calls under a schedule of asio events, and the class |
| Pipeline.dfy | producer, session, TCP and client interleaved; the end-to-end theorem |
| PrimeTables.dfy | googletest's prime tables |
| Utf8.dfy | googletest's UTF-8 validator |
| Decimal128.dfy | googletest's 128-bit decimal printers |
| Shuffle.dfy | googletest's Fisher-Yates shuffle |
| Glob.dfy, VmoduleFlag.dfy, Vlog.dfy | glog's glob matcher, the scan of the vmodule flag, and the VLOG site cache built on them |
| LineReader.dfy | glog's fixed-buffer line reader |
| IntegerText.dfy | glog's integer printer and hexadecimal reader |
| LogFile.dfy | glog's log-file length, rollover and page-drop accounting |
| IniFile.dfy, IniRoundTrip.dfy, IniLines.dfy | the INI parser and printer, their round trip, and what each kind of line means |

Code that updates state keeps that form: classes with `modifies` clauses, in-place arrays, loops with invariants. Concurrency is a transition system whose steps interleave freely. asio, clocks, the file system and the random generator are inputs: a schedule of events, a nondeterministic system call, a sequence of choices. eventpp's queue is a FIFO. The two regular expressions of `line_process` are predicates. 32- and 64-bit wrap-around is written out. The caller's array in `VCI_Receive` is memory: a payload is stored over as many bytes as it has. C++ undefined behaviour is either outside a method's precondition or an outcome of its own (`Fault` or `fault`, and `Hang` for an endless loop).

## Where the code does less than promised

Each of these is stated as an exact condition.

- `line_process` does not bound its store. Slots behind a line are untouched iff its payload is one object (`CanLine.SpillIff`); over a whole call a slot keeps its content iff no payload reaches it (`CanLine.SlotKeptIff`, with an example in `CanLine.SpillExample`), and the caller's memory is overrun iff some payload ends past it (`NetClient.ReceiveFraming`). Nothing this agent sends does either (`Pipeline.EndToEnd`).
- The glob matcher differs from glob semantics on patterns ending in `**`, and on strings that contain `*` (`Glob.ExactOnPlainStrings`, `Glob.ExactOnAllStrings`); `Glob.ExactMeaning` says what each pattern means on strings without `*`, and `Glob.ExactByAlignment` what is accepted on any string.
- `SetVLOGLevel` takes effect iff its pattern is listed already or no listed pattern matches the text of it (`Vlog.Registry.SetVlogLevel`). With `*` listed alone, a call for `foo` changes nothing (`Vlog.RefusedCall`). The level reaches searches for a base name iff the pattern matches it and was added, or is the pattern of the first module to match it; with `*` before `foo` it reaches none (`Vlog.ShadowedPattern`).
- A VLOG site cached at a module does not follow patterns added later: its pointer differs from what a new search would give iff one added since matches it (`Vlog.Registry.FreshIff`, with an example in `Vlog.StaleSite`).
- `HybridPrimeTable::GetNextPrime(-1)` is 2 with a table that holds a prime and -1 without one (`PrimeTables.HybridTable.NextPrime`).
- The INI round trip loses what `IniRoundTrip.WellFormed` excludes. An indented key comes back with its tail doubled, because `strncpy` writes no terminator (`IniRoundTrip.IndentedKey`).
- The comment on `itoa_r` speaks of truncated output; the code returns a null pointer and leaves the empty string (`IntegerText.Itoa`).
- `SetBasename` and `SetExtension` close the log file but keep its counters. The next file's counter is its length iff the old length was zero or a call since then started over, because of the limit or a fork (`LogFile.RenameCarries`, with a wrong counter in `LogFile.RenameExample`).
- A dropped connection keeps its unread bytes, and the next connection reads on behind them. The lines are those of both iff no unfinished line was left or none beyond the buffered ones is taken (`NetClient.ReconnectFraming`); one left-over byte spoils the next frame (`NetClient.CorruptedAfterReconnect`).
- Under a size flag of M MiB the 32-bit length cannot wrap iff no call accounts more than 2^32 - M MiB (`LogFile.ExactBound`; the run that wraps is in `LogFile.OneByteMoreWraps`).
- The client's own `VCI_Transmit` lines do not pass `line_process` (`CanLine.TransmitRefused`).

## Model

| member | source | states |
|---|---|---|
| Basics.SpacesAre | libControlCAN/inc/ini.h:288 | which characters isspace means in the C locale |
| HexCodec.DoConv | include/hex_dump.hpp:134-140 | writes two digits a byte, high nibble first, and touches no other cell |
| HexCodec.Bin2HexFast | include/hex_dump.hpp:93-123 | returns string lengths plus twice the object sizes; writes exactly that text and a NUL, for every field list |
| HexCodec.DecodeEncode | include/hex_dump.hpp:134-184 | the encoder's text denotes the bytes it was given |
| HexCodec.EncodeDecode | include/hex_dump.hpp:134-184 | re-encoding a decoded text of either case gives its lower-case form |
| HexCodec.HexStringToBin | include/hex_dump.hpp:143-163 | the masked-index decoder is total; on every even-length hexadecimal text it gives the denoted bytes |
| HexCodec.MaskedTableValue | include/hex_dump.hpp:143-163 | what the masked decoder makes of every character, by its low five bits |
| HexCodec.HexStringToBinFastest | include/hex_dump.hpp:165-184 | the direct-table decoder stores the digits' value, taking any other character of its table for 0, and touches no other byte |
| CanLine.CallSitesFit | libControlCAN/src/lib_control_can_imp_net.cc:97-290 | the text and NUL of every command and frame fit the buffer of the call site, 128 or 256 characters |
| CanLine.Encode | libControlCAN/src/lib_control_can_imp_net.cc:286-290 | a call site's buffer holds the command text and a NUL, the returned length is the text's, and the text reads back as the command |
| CanLine.CommandReadBack | libControlCAN/src/lib_control_can_imp_net.cc:97-290 | every command line, read as a name, a comma, the arguments in order and a newline, gives the command back |
| CanLine.LineProcess | libControlCAN/src/lib_control_can_imp_net.cc:306-326 | 0 and the whole payload stored, or -1 and nothing changed, exactly as the two patterns and the length test decide; a fault iff the store passes the end of the memory |
| CanLine.DecodedIff | libControlCAN/src/lib_control_can_imp_net.cc:306-326 | a line is accepted iff it is a header, 32 digits and an even payload of at least 48 digits, and the payload is what is decoded |
| CanLine.SpillIff | libControlCAN/src/lib_control_can_imp_net.cc:322-323 | a stored line leaves the slots after it alone, whatever they hold, iff its payload is one object |
| CanLine.AcceptedSlot | libControlCAN/src/lib_control_can_imp_net.cc:349-353 | after any lines, the slot of an accepted one holds the first 24 bytes of its payload |
| CanLine.SlotKeptIff | libControlCAN/src/lib_control_can_imp_net.cc:322-323 | after any lines a slot keeps its content, whatever it is, iff no accepted payload reaches into it |
| CanLine.SpillExample | libControlCAN/src/lib_control_can_imp_net.cc:322-323 | a two-object payload fills the slot of the refused line behind it |
| CanLine.FrameText | can_agent/main.cc:69-84 | a produced line is the 92-character body and one newline, with no newline inside |
| CanLine.FrameRoundTrip | libControlCAN/src/lib_control_can_imp_net.cc:306-326 | for every counter, tick and object, the produced line decodes to the object |
| CanLine.TransmitRefused | libControlCAN/src/lib_control_can_imp_net.cc:279-290 | every VCI_Transmit line is refused by the decoder |
| TextLines.SplitThenJoin | libControlCAN/src/lib_control_can_imp_net.cc:339-350 | splitting a stream at newlines loses nothing |
| TextLines.JoinThenSplit | libControlCAN/src/lib_control_can_imp_net.cc:339-350 | lines joined into a stream are recovered unambiguously |
| TextLines.LinesExtend | libControlCAN/src/lib_control_can_imp_net.cc:339-350 | later bytes only add lines: a segment boundary never changes a complete line |
| AgentSession.SessionObject.Start | can_agent/server/session.cc:28-33 | registers the listener and performs one drain |
| AgentSession.SessionObject.ConsumeCanObjHandler | can_agent/server/session.cc:42-46 | appends the line, or drops it when 2048 are queued |
| AgentSession.SessionObject.DoCanObjTranspose | can_agent/server/session.cc:48-66 | pops up to eight lines into the buffer, then starts a write or a timer wait |
| AgentSession.SessionObject.HandleWrite | can_agent/server/session.cc:75-86 | consumes what was written; drains again, or stops listening after a failure |
| AgentSession.DrainIsSteps | can_agent/server/session.cc:48-66 | a drain consists of pop steps and one closing step of the transition system |
| AgentSession.InvRun | can_agent/server/session.cc:28-86 | the session invariant holds in every state of every run |
| AgentSession.SessionSafety | can_agent/server/session.cc:28-86 | one timer or write outstanding up to a failed write and none after; empty buffer at each drain; one to eight whole lines a write, fewer than eight only when no more are queued; dispatched = dropped + queued + popped |
| AgentSession.RecordOk | can_agent/server/session.cc:42-46 | a line is dropped exactly when it meets a full queue, and the accepted lines keep their order |
| AgentSession.FailedIsFinal | can_agent/server/session.cc:78-82 | after a failed write no step is possible |
| AgentSession.SessionAdvances | can_agent/server/session.cc:48-86 | until it is drained or a write fails, the session always has a step of its own that brings it nearer to that |
| NetClient.ClientObject.OpenDevice | libControlCAN/src/lib_control_can_imp_net.cc:84-108 | connects if not connected, drops the connection if the command cannot be written, and keeps what is buffered |
| NetClient.OpenIsActions | libControlCAN/src/lib_control_can_imp_net.cc:84-108 | opening the device is a sequence of the atomic actions of the transition system |
| NetClient.ClientObject.ProcessLine | libControlCAN/src/lib_control_can_imp_net.cc:339-353 | decodes the first buffered line at the slot and consumes it with its newline, or faults iff the store leaves the memory |
| NetClient.ClientObject.ReadPhase | libControlCAN/src/lib_control_can_imp_net.cc:328-394 | the event loop computes what the schedule of arrivals, completions, deadline and errors prescribes |
| NetClient.ClientObject.PostPhase | libControlCAN/src/lib_control_can_imp_net.cc:396-410 | the loop over the left-over buffer computes its specification |
| NetClient.ClientObject.VciReceive | libControlCAN/src/lib_control_can_imp_net.cc:368-413 | a whole call: the refused cases change nothing; otherwise it faults iff the specified call overruns the memory, and without a fault result, memory and state are those of the specified call |
| NetClient.ReceiveFraming | libControlCAN/src/lib_control_can_imp_net.cc:328-413 | for every schedule and every stream: r <= len, exactly the first r lines consumed, bytes conserved, no newline left unless r = len or the connection was dropped, only a read error drops it; the memory is what the lines leave, accepted slots hold their payload's start, unreached slots are untouched, and it is overrun iff a payload ends past it |
| NetClient.EventLoop | libControlCAN/src/lib_control_can_imp_net.cc:328-394 | for every schedule, up to which event the loop goes: it receives the bytes and reads one line a completion, and stops when full, at the deadline, a cancellation, an error or a completion without a line |
| NetClient.OneObjectFraming | libControlCAN/src/lib_control_can_imp_net.cc:328-413 | on a stream with one object a line: slot i is the decoding of line i or, if refused, untouched; nothing else changes and nothing is overrun |
| NetClient.ApplyConserved | libControlCAN/src/lib_control_can_imp_net.cc:338-410 | every action keeps consumed lines plus buffer equal to the bytes received |
| NetClient.CallIsActions | libControlCAN/src/lib_control_can_imp_net.cc:368-413 | every call is a sequence of the atomic actions of the transition system |
| NetClient.ReconnectFraming | libControlCAN/src/lib_control_can_imp_net.cc:89-95 | over every sequence of actions after a reconnect: the lines taken are the buffered ones followed by the new ones iff no partial line was left or none beyond the buffered ones is taken; otherwise the first new line has the left-over before it |
| NetClient.CorruptedAfterReconnect | libControlCAN/src/lib_control_can_imp_net.cc:89-95 | a run: one byte, a break, a reconnect, and the first frame is refused while its caller is told of one object |
| Pipeline.Producer.Round | can_agent/main.cc:73-91 | one round emits a line for each received frame in order, each saying its counter modulo 2^64, its tick and its object, and leaves nothing queued |
| Pipeline.FrameLineSays | can_agent/main.cc:76-81 | the characters of every line denote the header, the counter and the tick as 64-bit numbers in memory order, the object and a newline |
| Pipeline.RoundIsSteps | can_agent/main.cc:73-91 | a round is one produce step a frame followed by one dispatch step each, handing a listening session exactly the lines Round emits |
| Pipeline.PayloadsAreSingle | can_agent/main.cc:75-84 | all that this agent has in flight is whole frame lines, so each payload is one object |
| Pipeline.OutputsStep | libControlCAN/src/lib_control_can_imp_net.cc:328-413 | every step of every component keeps the callers' objects equal to those of the first accepted frames |
| Pipeline.RunOk | can_agent/server/session.cc:28-86 | the pipeline invariant holds in every state of every run |
| Pipeline.EndToEnd | can_agent/main.cc:73-91 | for every interleaving and segmentation: delivered objects are an in-order, repetition-free selection of the dispatched frames; a frame not accepted met a full queue; the rest is exactly the bytes in flight; no caller's memory is overrun |
| Pipeline.Progress | can_agent/main.cc:73-91 | from every reachable state with no failed write and a connected client, some way on without new frames empties everything in flight and hands over exactly the objects of all accepted frames, in order |
| PrimeTables.TrialIsPrime | 3rd/googletest/samples/prime_tables.h:55-64 | trial division decides primality |
| PrimeTables.PrimeAbove | 3rd/googletest/samples/prime_tables.h:66-72 | there is a prime above every number, so the search ends |
| PrimeTables.TrialNextPrime | 3rd/googletest/samples/prime_tables.h:66-72 | terminates with the least prime above p, or -1 for a negative p |
| PrimeTables.SieveTable.CalculatePrimesUpTo | 3rd/googletest/samples/prime_tables.h:99-115 | the table equals primality for every n up to max |
| PrimeTables.SieveTable.MarkMultiples | 3rd/googletest/samples/prime_tables.h:108-113 | marking from the square on removes just what the smaller primes left |
| PrimeTables.SieveTable.Contains | 3rd/googletest/samples/prime_tables.h:86-88 | true for the primes within the table, false for every other integer |
| PrimeTables.SieveTable.NextPrime | 3rd/googletest/samples/prime_tables.h:90-96 | the least prime above p, or -1 iff the table holds none |
| PrimeTables.SieveComplete | 3rd/googletest/samples/prime_tables.h:103-115 | stopping at the square root is enough |
| PrimeTables.HybridTable.Contains | 3rd/googletest/samples/sample8_unittest.cc:59-64 | primality, with or without the table |
| PrimeTables.HybridTable.NextPrime | 3rd/googletest/samples/sample8_unittest.cc:66-72 | the least prime above every p >= 0 in both configurations, and what each gives below zero |
| Utf8.IsValidUtf8 | 3rd/googletest/src/gtest-printers.cc:481-512 | true iff the bytes are the encoding of a sequence of Unicode scalar values; no index reaches the length |
| Utf8.EncodingUnique | 3rd/googletest/src/gtest-printers.cc:481-512 | that sequence is unique |
| Utf8.DecodeEncodes | 3rd/googletest/src/gtest-printers.cc:487-506 | what one turn of the loop accepts is the encoding of one scalar value |
| Utf8.EncodeAccepted | 3rd/googletest/src/gtest-printers.cc:487-506 | every encoded scalar value is accepted whole, whatever follows |
| Decimal128.DivisionStep | 3rd/googletest/src/gtest-printers.cc:306-316 | no intermediate value leaves 64 bits, and quotient and digit are exact |
| Decimal128.PrintU128 | 3rd/googletest/src/gtest-printers.cc:289-321 | the canonical decimal text of every 128-bit value, at most 39 digits |
| Decimal128.PrintI128 | 3rd/googletest/src/gtest-printers.cc:322-329 | the signed text, the most negative value included |
| Decimal128.DecimalUnique | 3rd/googletest/src/gtest-printers.cc:289-321 | a number has only one such text |
| Shuffle.ShuffleRange | 3rd/googletest/src/gtest-internal-inl.h:301-322 | an invalid range changes nothing; a valid one is shuffled in place and the rest untouched |
| Shuffle.ShuffledAt | 3rd/googletest/src/gtest-internal-inl.h:312-321 | place by place: the last gets the element chosen first, which the last element replaces in the rest |
| Shuffle.ShuffledPermutes | 3rd/googletest/src/gtest-internal-inl.h:312-321 | every choice sequence permutes the range |
| Shuffle.ShuffledInjective | 3rd/googletest/src/gtest-internal-inl.h:312-321 | on distinct elements different choices give different results |
| Shuffle.ShuffledSurjective | 3rd/googletest/src/gtest-internal-inl.h:312-321 | every permutation is reached |
| Glob.SafeFnMatch | 3rd/glog-0.6.0/src/vlog_is_on.cc:73-98 | terminates and computes the matcher's specification |
| Glob.Sound | 3rd/glog-0.6.0/src/vlog_is_on.cc:73-98 | what it accepts, the pattern matches |
| Glob.Complete | 3rd/glog-0.6.0/src/vlog_is_on.cc:73-98 | it accepts every match of a pattern not ending in two stars against a string without stars |
| Glob.ExactMeaning | 3rd/glog-0.6.0/src/vlog_is_on.cc:73-98 | for every pattern and every string without `*`: accepted iff the glob matches, where a final `**` stands for `?*` |
| Glob.ExactOnPlainStrings | 3rd/glog-0.6.0/src/vlog_is_on.cc:73-98 | exact on all strings without `*` iff the pattern does not end in two stars |
| Glob.ExactOnAllStrings | 3rd/glog-0.6.0/src/vlog_is_on.cc:73-98 | exact on all strings iff the pattern has no `*` |
| Glob.ExactByAlignment | 3rd/glog-0.6.0/src/vlog_is_on.cc:73-98 | for every pattern and every string: the glob matches iff the string can be shared out among the pattern's characters, and the code accepts iff it can be so that each `*` takes a facing `*` alone and otherwise, unless last, leaves something over |
| VmoduleFlag.FlagReadBack | 3rd/glog-0.6.0/src/vlog_is_on.cc:135-157 | settings with white space, signs and trailing text are read as meant, those without a number skipped, if no pattern holds an `=`; and only if no pattern of one with a number does |
| VmoduleFlag.FlagCut | 3rd/glog-0.6.0/src/vlog_is_on.cc:135 | what follows a NUL in the flag is not seen |
| Vlog.Registry.UpdateLevels | 3rd/glog-0.6.0/src/vlog_is_on.cc:172-187 | the previous level of the first match, and the new level in every exact match |
| Vlog.Registry.Unlink | 3rd/glog-0.6.0/src/vlog_is_on.cc:195-210 | removing a node in place keeps the list acyclic and duplicate-free |
| Vlog.Registry.Redirect | 3rd/glog-0.6.0/src/vlog_is_on.cc:195-210 | exactly the matching sites point at the new module and leave the list; the others keep level and order |
| Vlog.Registry.SetVlogLevel | 3rd/glog-0.6.0/src/vlog_is_on.cc:166-215 | result, levels, modules and sites after the call; when it takes effect; for every base name, whether a search then gives the new level or what it gave before; coherence is kept |
| Vlog.RefusedCall | 3rd/glog-0.6.0/src/vlog_is_on.cc:179-185 | with `*` listed, setting `foo` changes nothing |
| Vlog.ShadowedPattern | 3rd/glog-0.6.0/src/vlog_is_on.cc:255-265 | with `*` before `foo`, setting `foo` governs no base name |
| Vlog.Registry.Initialize | 3rd/glog-0.6.0/src/vlog_is_on.cc:130-163 | the flag's text is scanned up to a NUL and its modules are spliced before the list in order |
| Vlog.Registry.InitVlog | 3rd/glog-0.6.0/src/vlog_is_on.cc:219-291 | decides by the first module matching the base name or the default, and caches that pointer once the flag was read |
| Vlog.BaseNameIs | 3rd/glog-0.6.0/src/vlog_is_on.cc:234-250 | the base name of every file name: behind the last slash, before the first dot after it, without a final "-inl" |
| Vlog.Registry.Cache | 3rd/glog-0.6.0/src/vlog_is_on.cc:268-285 | a site enters the list once, when it falls to the default level |
| Vlog.Run | 3rd/glog-0.6.0/src/vlog_is_on.cc:166-291 | after any sequence of calls the cache is coherent and both lists are well formed |
| Vlog.Registry.CoherentMeaning | 3rd/glog-0.6.0/src/vlog_is_on.cc:268-285 | a cached site whose base name has no `*` is at the default level iff no listed glob matches it |
| Vlog.Registry.FreshIff | 3rd/glog-0.6.0/src/vlog_is_on.cc:255-265 | after any calls, a cached pointer equals what a new search gives iff it is the default or no pattern added since it was set matches the site |
| Vlog.StaleSite | 3rd/glog-0.6.0/src/vlog_is_on.cc:187-193 | a site cached at `foo*` stays there after `f*` is added before it |
| LineReader.File.ReadFromOffset | 3rd/glog-0.6.0/src/symbolize.cc:146-166 | through any short reads: an error, or exactly the bytes that are there and fit |
| LineReader.Reader.ReadLine | 3rd/glog-0.6.0/src/symbolize.cc:410-448 | without a read error, returns the next line iff it is complete and fits the buffer |
| LineReader.Reader.Refill | 3rd/glog-0.6.0/src/symbolize.cc:422-437 | the incomplete line is moved to the front and the buffer filled behind it |
| LineReader.ReadLines | 3rd/glog-0.6.0/src/symbolize.cc:394-483 | successive calls return the file's complete lines in order and stop only at their end, an error, or a line too long |
| IntegerText.Itoa | 3rd/glog-0.6.0/src/symbolize.cc:674-720 | succeeds iff the base is 2 to 16 and text and NUL fit; the text, its NUL, and nothing beyond the size |
| IntegerText.Reverse | 3rd/glog-0.6.0/src/symbolize.cc:710-718 | the two-ended loop reverses the digits in place |
| IntegerText.TextValue | 3rd/glog-0.6.0/src/symbolize.cc:691-705 | the text denotes the number in every base, with every padding |
| IntegerText.TextLength | 3rd/glog-0.6.0/src/symbolize.cc:691-705 | its length is max(1, padding, digit count) |
| IntegerText.GetHex | 3rd/glog-0.6.0/src/symbolize.cc:488-502 | reads the longest hexadecimal prefix, modulo 2^64 |
| IntegerText.PrintThenRead | 3rd/glog-0.6.0/src/symbolize.cc:488-502 | reading base-16 output back gives every 64-bit value |
| LogFile.LogFileObject.WriteMessage | 3rd/glog-0.6.0/src/logging.cc:1140-1334 | the counters, the shared stop flag and the advised range after a call |
| LogFile.LogFileObject.CloseForRename | 3rd/glog-0.6.0/src/logging.cc:991-1018 | the file is closed and the counters stay |
| LogFile.LogFileObject.Flush | 3rd/glog-0.6.0/src/logging.cc:1024-1038 | an open file has nothing unflushed afterwards; the other counters stay |
| LogFile.CallEffect | 3rd/glog-0.6.0/src/logging.cc:1140-1300 | what a named call leaves, by the state before it: whether it has or creates a file, the length modulo 2^32, the stop flag and the attempt counter |
| LogFile.StartsOverIff | 3rd/glog-0.6.0/src/logging.cc:353-357 | without a fork a call starts over iff the length reached the flag's MiB, or one MiB for a flag outside 1 to 4095 |
| LogFile.FlushCounter | 3rd/glog-0.6.0/src/logging.cc:1301-1307 | over every run the flush counter is the bytes accounted since the last flush or start-over, and a counted call flushes iff told to, due, or at a million |
| LogFile.AdviceIff | 3rd/glog-0.6.0/src/logging.cc:1308-1326 | over every run a flushing call with the drop flag advises iff at least 3 MiB lie behind the last advised range, and then leaves at least 1 and under 2; no other call advises |
| LogFile.AccountingSafe | 3rd/glog-0.6.0/src/logging.cc:1152-1327 | in every state of every run of fitting records no fitting call wraps the length; advised ranges are contiguous, disjoint, at least 2 MiB and leave the last MiB |
| LogFile.ExactBound | 3rd/glog-0.6.0/src/logging.cc:1152-1157 | for every flag and bound: no run whose calls account within the bound wraps the length iff the bound is at most 2^32 - MaxLogSize MiB |
| LogFile.OneByteMoreWraps | 3rd/glog-0.6.0/src/logging.cc:353-357 | for every flag and header size, a run from construction whose last record, one byte over that bound, brings the length to zero |
| LogFile.WriteBounds | 3rd/glog-0.6.0/src/logging.cc:1301-1307 | in every state of every run of records within a bound the length exceeds the limit by less than the bound; fewer than 10^6 bytes are unflushed after a counted message |
| LogFile.CounterIsFileLength | 3rd/glog-0.6.0/src/logging.cc:1272-1294 | without renames the counter is what was accounted to the open file |
| LogFile.RenameCarries | 3rd/glog-0.6.0/src/logging.cc:991-1018 | over every run, the counter of the file created after a rename is its length iff the old length was zero or a call since started over |
| LogFile.RenameExample | 3rd/glog-0.6.0/src/logging.cc:991-1018 | a run that ends with fifteen counted for a file of five bytes |
| LogFile.ReopensAtOnce | 3rd/glog-0.6.0/src/logging.cc:1152-1165 | in every run the first named call after construction or after renaming an open file, and every call that starts over, tries to create the file |
| LogFile.AttemptsProgress | 3rd/glog-0.6.0/src/logging.cc:1159-1165 | over any stretch of any run without a file or a rollover, the attempts number (counter + named calls) / 32, so 32 named calls hold exactly one; a file appears iff an attempt can create it |
| LogFile.FullDiskStops | 3rd/glog-0.6.0/src/logging.cc:1278-1300 | over any run, from a full disk up to and including what lets writing resume, no message is counted, and a header iff a file is created |
| IniFile.Ini.ParseText | libControlCAN/inc/ini.h:260-341 | the loop over getline computes the parser's specification, endless loop and undefined behaviour included |
| IniFile.Ini.HandleLine | libControlCAN/inc/ini.h:279-338 | one line's effect on sections and selection |
| IniLines.CommentsIgnored | libControlCAN/inc/ini.h:281-283 | lines that begin with `#` or `//` have no effect |
| IniLines.NoValueIgnored | libControlCAN/inc/ini.h:309-313 | empty lines, and keys without `=` or without a value, have no effect |
| IniLines.IgnoredAnywhere | libControlCAN/inc/ini.h:260-341 | a line without effect can be left out of any text |
| IniLines.SectionSelected | libControlCAN/inc/ini.h:284-303 | a section line, white space behind it or not, selects a new empty section named by all but its last character |
| IniLines.BareBracketFaults | libControlCAN/inc/ini.h:287-291 | a bracket followed by white space only is undefined behaviour |
| IniLines.PairStored | libControlCAN/inc/ini.h:309-333 | a pair goes to the section selected last, over an older value, and nothing else changes; without a section it is undefined behaviour |
| IniLines.OnlyEqualsFaults | libControlCAN/inc/ini.h:309-311 | a line of equals signs only is undefined behaviour |
| IniLines.CutAtNul | libControlCAN/inc/ini.h:279-280 | what follows a NUL in a line is not seen |
| IniLines.HangIff | libControlCAN/inc/ini.h:264-265 | a line of 256 characters or more never ends the loop; a shorter one that faults ends it there |
| IniFile.Save | libControlCAN/inc/ini.h:409-437 | false and the file untouched without a name or an open file; otherwise the text for a given iteration order |
| IniFile.SaveSection | libControlCAN/inc/ini.h:422-432 | a header line and one line a pair, each cut at a NUL |
| IniRoundTrip.ValueCutAtNul | libControlCAN/inc/ini.h:428-432 | a NUL in a saved value cuts its line there, newline included |
| IniRoundTrip.NameCutAtNul | libControlCAN/inc/ini.h:422-426 | so does one in a section's name |
| IniRoundTrip.IndentedKey | libControlCAN/inc/ini.h:313-320 | an indented key is read back without its indent and with as many characters of its end doubled, so never as itself |
| IniRoundTrip.ParsedIsShaped | libControlCAN/inc/ini.h:260-341 | what any text can parse to: clean names, shaped keys, non-empty values |
| IniRoundTrip.GoodRestored | libControlCAN/inc/ini.h:409-437 | well-formed contents are restored from every order |
| IniRoundTrip.RestoredIsGood | libControlCAN/inc/ini.h:260-341 | only well-formed contents are restored |
| IniRoundTrip.RoundTrip | libControlCAN/inc/ini.h:260-341 | for every object and iteration order, parse after save rebuilds it without empty sections iff the contents are well formed |

## Left out

- CanLine.LineProcess: after a store past the end of the caller's memory nothing is promised, because C++ promises nothing; NetClient.ClientObject.VciReceive stops there too.
- HexCodec.HexStringToBinFastest: a character beyond the table's 103 entries is excluded, because the code then reads past the table; an odd length is read up to the terminator of a std::string.
- AgentSession.SessionObject.HandleWrite: asio consumes the written bytes itself before it calls the handler, whose own consume is a second one; both are modelled, and it only matters after a failed write, when the buffer is not used again.
- Pipeline.EndToEnd: follows one connection; reconnecting is in NetClient.ReconnectFraming.
- PrimeTables.TrialIsPrime: integers are unbounded, so the overflow of `i * i` near the largest int is not modelled; the same holds for the other prime tables.
- PrimeTables.HybridTable.NextPrime: an argument below -1 with a table is excluded, because the code then indexes before the array.
- Vlog.Registry.Initialize: a flag with a number outside int is excluded, because sscanf is then undefined; the same holds for Vlog.Registry.InitVlog and Vlog.Run.
- Vlog.Registry.InitVlog: the lock makes calls atomic; the unlocked reads at VLOG sites and the Windows path separator are not modelled.
- IniFile.Ini.ParseText: `char` is signed, so the byte-order-mark test on the first line never holds; the overlapping strncpy is taken to copy forwards.
- IniFile.Save: whether the file opens is an input, and writing to it does not fail.
- LogFile.LogFileObject.WriteMessage: file names, symbolic links, header text and old-log cleaning are not modelled; a header is only its length.
- Socket connect, `write_line` and the resolver: success and failure are environment steps, as are bytes on the wire.
- `CanAbstract`, `Server`, `SessionPool`, the direct-CAN back ends and the C exports: forwarding only.
- glog's demangler, stack unwinders, signal handlers and sinks; googletest's runner and death tests; asio examples: outside the forwarding system and its algorithms.
- The INI parser's binary and wide-character variants: the library does not use them.
