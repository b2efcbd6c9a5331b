# oflmotes: model and proofs of the meter data path

oflmotes reads electricity meters over a serial line, sends short reports by radio, and stores them
in a time-series database. This project models the path that a reading takes and proves what the
path promises.

| file | models |
|---|---|
| `Text.dfy`, `Hex.dfy` | splitting, decimal printing, `atoi`, `ParseInt` and the hex layer, as the C and Go programs use them |
| `Uart.dfy`, `MeterText.dfy` | the receive interrupt and the ring buffer: bytes become lines; the bytes a meter sends |
| `MeterReport.dfy` | the report machine with its bit mask, the history it stands for, and the text of a report |
| `MeterFrames.dfy` | which lines of a meter's frame are read, and the report of a whole frame |
| `Sentinel.dfy`, `SensorSession.dfy` | the older form of that machine, with -1 for "not read yet", compared with the bit mask; its sessions, with the power of the interface |
| `Mote.dfy`, `Node.dfy` | interrupt, teleinfo thread and main thread as steps in any order; the same steps in place on the node's variables |
| `Priority.dfy`, `Attained.dfy` | the node when the teleinfo thread has priority; runs that reach the limits and the races |
| `Reports.dfy` | what the reports of a run say: the lines taken from the ring determine them |
| `OwnReadings.dfy`, `Sessions.dfy` | exactly when a session reports its own readings, for every run and for a thread that keeps up |
| `Runs.dfy`, `MixedReport.dfy` | runs built step by step; runs in which a session does not report its own readings |
| `Pktdump.dfy`, `DumpHex.dfy` | the gateway board's frame printer and its row and column dump |
| `Scanner.dfy` | the gateway's incremental scanner over reads of any size |
| `Decoder.dfy` | the packet decoder |
| `Frames.dfy`, `Gateway.dfy`, `CutFrames.dfy` | printer, scanner and decoder together: streams of frames, noise, frames cut off |
| `StoreForward.dfy` | the queue of packets in front of the database |
| `EndToEnd.dfy` | the whole path |

A byte is a character below 256. A method in a class is a step of the source on its own variables and
is tied to a function of the old state; the properties are lemmas about these functions, over every
run. `dafny verify dfyconfig.toml` checks the project. `{:induction false}` on a lemma says that its
body is the whole proof, with or without a call of itself: Dafny adds no induction on its parameters.

## What the proofs found

- A frame cut off after its payload field and followed by a good frame becomes one record that joins
  the first sender's metrics to the second sender's address, LQI and RSSI (`CutFrames.CutInHeader`).
  A cut inside the hex payload gives a record without metrics (`CutFrames.CutInPayload`). Cuts inside
  the tag, or of the final newline only, cost no other frame (`CutFrames.CutIsNoise` says exactly which).
  After any bytes whatever, at most one frame is lost (`CutFrames.AnyBytesThenStream`).
- `teleinfo_enable_rx` clears neither `state` nor the ring nor the queue of messages. Exactly when this
  does no harm, for every interleaving: the reports of a session come from lines taken, and bytes
  received, from its opening on if and only if `state` is 0, the ring is empty, and the thread neither
  holds a line with a reading nor is building a report (`OwnReadings.OwnExactly`). When the thread has
  its priority only the first two matter, and both can fail (`MixedReport.BytesLeftOver`): a report can
  mix the values of two meters (`MixedReport.ReportMixesMeters`).
- That the session then reports what its *bytes* call for needs more, since where a line ends in the
  ring depends on when the thread takes it. It holds if the thread keeps up: it is at rest before the
  first byte and before every next one (`Sessions.CleanStart`). A message left in the queue is enough
  to break this: a byte that comes before the wake-up can cost the session its report
  (`MixedReport.ReportMissed`). For every run, `Reports.ReportsOfRun` says what the reports are in terms
  of the lines taken.
- Reports never outnumber sessions, although `teleinfo_enable_rx` is not atomic: the thread may report
  and fall asleep between the assignment of the meter and the wake-up, and is then woken for nothing.
  The invariant `Mote.SessionsCover` shows why no second report can follow.
- Each of the three reads of the index for a report gives the meter whose session is open at that
  moment, and 0 when none is (`Mote.EachIndex`; the three can differ, `Attained.IndexesDiffer`, but the
  step machine makes them at once, `Mote.IndexOfReport`). Without the priority that `teleinfo.h` gives
  the thread this can be 0 or the other meter's (`Attained.IndexZeroHappens`,
  `Attained.NextIndexHappens`), and a wake-up is lost exactly when the thread is still on its way to
  sleep after sending for an earlier session (`Attained.WakeupLostExactly`). With the priority neither happens (`Priority.OnePerSession`,
  `Priority.IndexOfOpenMeter`, `Priority.IndexesAgree`).
- The -1 form agrees with the bit mask on a session's first report exactly when no value in it is
  negative (`Sentinel.SentinelAgrees`). A power of 32768 to 65535, or of 98304 up, is stored as a
  negative number and makes the -1 form wait; other powers above 32767 are stored wrong by both
  (`Sentinel.PappWraps`).
- The older firmware cuts the power of the serial interface after a report. A session can still send a
  second one, but only for newline messages queued before that, and only if the line in the ring stores
  no negative value (`SensorSession.ReportsAfterStop`, `SensorSession.SecondReportHappens`). Before its
  first session a newline alone sends a report of zeros (`SensorSession.ReportBeforeSessions`).
- `dump_hex` prints one more, empty row when the packet length is a multiple of 16, and never reaches
  the line break after its loops.

Where code and comments disagree the model follows the code: the sample frame in the comment at
mote-gateway/soft/mote-gateway.go:209 has `SMAC:` and a blank, but the printer writes and the decoder
reads `SMAC=`; the comment at mote-devboard/apps/node-teleinfo/teleinfo.c:54 says every byte but a
newline is kept, but control characters are dropped.

## Model

| member | source | states |
|---|---|---|
| `Scanner.MatchEndExact` | mote-gateway/soft/mote-gateway.go:210 | a position starts a match of `<PAYLOAD=[^>]+>\n` with a given end if and only if the search finds that end: a match has one possible end |
| `Scanner.FindIsLeftmost` | mote-gateway/soft/mote-gateway.go:218 | the search returns the leftmost match of the expression, or none exists |
| `Scanner.MatchStable` | mote-gateway/soft/mote-gateway.go:210-218 | a match found stays the leftmost one, with the same end, after any bytes are appended, even if an earlier tag failed before it |
| `Scanner.PiecesAppend` | mote-gateway/soft/mote-gateway.go:215-226 | extracting from a prefix first and carrying the rest over finds exactly the frames of the whole, and leaves the same rest |
| `Scanner.GluePieces` | mote-gateway/soft/mote-gateway.go:218-226 | extraction loses no byte; every frame starts with its tag, has a body and no `>`; what was skipped holds no match |
| `Scanner.ChunkingIndependence` | mote-gateway/soft/mote-gateway.go:206-231 | after any reads, frames handed over, then frames in the buffer, are the frames of NUL and all bytes read |
| `Scanner.SentIsPrefix` | mote-gateway/soft/mote-gateway.go:206-231 | whatever is read later, the frames handed over are the first frames of the whole input |
| `Scanner.ByteConservation` | mote-gateway/soft/mote-gateway.go:206-226 | skipped bytes, tags and frames handed over, followed by the buffer, are NUL and all bytes read |
| `Scanner.DeliveryStep` | mote-gateway/soft/mote-gateway.go:213-230 | a non-empty read hands over one frame if the input holds one not handed over yet, and none otherwise |
| `Scanner.ExactLag` | mote-gateway/soft/mote-gateway.go:213-230 | frames handed over after k non-empty reads are the minimum over i <= k of (complete after i) + (k - i) |
| `Scanner.NeverBehind` | mote-gateway/soft/mote-gateway.go:213-230 | the reader is never behind if and only if no read completes more than one frame |
| `Scanner.BacklogDrains` | mote-gateway/soft/mote-gateway.go:213-230 | each further non-empty read hands over one frame until everything complete was handed over |
| `Scanner.HandedOverFirst` | mote-gateway/soft/mote-gateway.go:213-230 | whatever is read later, the packets handed over begin with the frames of the input so far, once there are enough of them |
| `Scanner.EmptyRead` | mote-gateway/soft/mote-gateway.go:213-214 | a read of no bytes hands nothing over, even when a frame is waiting |
| `Scanner.SerialWorker.constructor` | mote-gateway/soft/mote-gateway.go:206 | the buffer starts as one NUL byte with nothing sent |
| `Scanner.SerialWorker.OnRead` | mote-gateway/soft/mote-gateway.go:213-232 | one turn of the loop in place: new state, and the packet sent, if any, is the next frame of the input |
| `Text.SplitUnique` | mote-gateway/soft/mote-gateway.go:73-75 | `strings.Split` returns the only separator-free parts that join back to the text |
| `Text.ParseIntOfDec` | mote-gateway/soft/mote-gateway.go:84-87 | `ParseInt` reads back every int64 that was printed, and saturates at the bounds outside |
| `Text.ParseIntOfDigits` | mote-gateway/soft/mote-gateway.go:109 | digits after a sign, or after none, read as the number they denote, however many zeros come first, saturated at 64 bits |
| `Text.ParseIntOfNothing` | mote-gateway/soft/mote-gateway.go:109 | a sign alone, or nothing, reads as 0 |
| `Text.AtoiExact` | mote-devboard/apps/node-teleinfo/teleinfo.c:133 | what `atoi` reads of any text: white space, at most one sign, and the digits up to anything else |
| `Text.ParseIntOfJunk` | mote-gateway/soft/mote-gateway.go:109 | digits followed by anything else read as 0, because the error is dropped, unless the digits alone need more than 64 bits: then the bound is read |
| `Hex.DecodeEncode` | mote-gateway/soft/mote-gateway.go:92-97 | hex decoding undoes `%02X` for all bytes (Base 16, section 8 of RFC 4648) |
| `Hex.NibbleValExact` | mote-gateway/soft/mote-gateway.go:92 | a byte is read as a hex digit if and only if it is the upper-case or the lower-case one |
| `Hex.DecodeAccepts` | mote-gateway/soft/mote-gateway.go:92-96 | the decoder fails exactly on odd lengths and bytes that are no hex digit of either case |
| `Pktdump.DumpData` | mote-gateway/hard/pktdump.c:64-66 | the byte loop with its 8-bit counter prints the hex of the whole data |
| `Pktdump.OthersPrintNothing` | mote-gateway/hard/pktdump.c:53-79 | snips of other types, anywhere in the list, print nothing |
| `Pktdump.SampleHeader` | mote-gateway/hard/pktdump.c:75 | the header of a frame, byte by byte |
| `Pktdump.Dump` | mote-gateway/hard/pktdump.c:51-83 | the walk over a snip list of any order and kinds prints the frame text |
| `Decoder.Packet.ReadFields` | mote-gateway/soft/mote-gateway.go:73-90 | the first loop leaves the fields that a fold over the `;` parts gives, ignoring parts without exactly one `=` |
| `Decoder.Packet.ReadEntries` | mote-gateway/soft/mote-gateway.go:100-114 | the second loop leaves the metrics that a fold over the `;` parts gives, with TEMP and HUMI values as text |
| `Decoder.Packet.DecodePacket` | mote-gateway/soft/mote-gateway.go:66-116 | the whole decoding in place, with TEMP and HUMI values as text, including the early return with empty metrics when the hex is bad |
| `Decoder.FieldExact` | mote-gateway/soft/mote-gateway.go:74-89 | a part sets the field that it names and nothing else; a part with another key, or without exactly one `=`, sets nothing |
| `Decoder.FieldsLastWin` | mote-gateway/soft/mote-gateway.go:73-90 | each field of the header is that of its last part, and without one what the packet held before |
| `Decoder.DecodedHeader` | mote-gateway/soft/mote-gateway.go:73-97 | so it is after the whole decoding of any record |
| `Decoder.ValueKinds` | mote-gateway/soft/mote-gateway.go:104-111 | exactly TEMP and HUMI keep their text, every other value is read as an integer |
| `Decoder.LastEntryWins` | mote-gateway/soft/mote-gateway.go:100-114 | a key is in the map if and only if some part has exactly one `:` after it; its value is the last such part's; other parts change nothing |
| `Decoder.DecodeOfPairs` | mote-gateway/soft/mote-gateway.go:100-114 | decoding key:value text gives back every list of integer metrics, last value per key, with or without a trailing `;` |
| `Decoder.DecodeOfWritten` | mote-gateway/soft/mote-gateway.go:100-114 | so it does for numbers in any spelling, with a sign and any zeros in front, saturated at 64 bits |
| `Decoder.MapOfDistinct` | mote-gateway/soft/mote-gateway.go:100-114 | with distinct keys the map holds each metric and nothing else |
| `Frames.HeadInside` | mote-gateway/hard/pktdump.c:58 | no frame tag begins in noise and ends in the frame after it |
| `Frames.FrameFound` | mote-gateway/soft/mote-gateway.go:210-218 | a frame after some bytes is found where it stands if and only if every tag in those bytes is followed by a `>` that ends no frame |
| `Frames.PlainNoise` | mote-gateway/hard/pktdump.c:117 | bytes without `<`, such as the debug lines of the board, are such noise |
| `Frames.BarrenAppend` | mote-gateway/soft/mote-gateway.go:210-226 | such noise may be followed by more of it that begins with `<` |
| `Gateway.DecodeOfPrinted` | mote-gateway/hard/pktdump.c:58-83 | decoding a printed frame gives back payload, source, LQI and RSSI for every payload of up to 255 arbitrary bytes |
| `Gateway.DecodeOfBadHex` | mote-gateway/soft/mote-gateway.go:92-96 | a record whose payload is no hex text gives its header, keeps the text, and has no metrics |
| `Gateway.PiecesOfStream` | mote-gateway/soft/mote-gateway.go:218-226 | in frames and noise in any alternation the scanner finds every frame, in order, and nothing else |
| `Gateway.MultiFrameRoundTrip` | mote-gateway/soft/mote-gateway.go:206-231 | whatever part of a stream was read, cut into any reads, the packets handed over decode to the first frames printed |
| `Gateway.AllFramesArrive` | mote-gateway/soft/mote-gateway.go:213-230 | a stream fully read holds exactly its frames; after as many further non-empty reads as frames, whatever they hold, packet i handed over is frame i of the stream and decodes to what was printed, for every i |
| `CutFrames.CutIsNoise` | mote-gateway/hard/pktdump.c:58-83 | what is left of a cut frame is harmless noise if and only if the cut is inside the tag or takes only the final newline |
| `CutFrames.HarmlessCut` | mote-gateway/soft/mote-gateway.go:210-226 | after such a cut every good frame is read exactly |
| `CutFrames.MergingCut` | mote-gateway/soft/mote-gateway.go:210-226 | after any other cut only the first good frame is lost, merged into one record with the cut one |
| `CutFrames.FrameSwallowed` | mote-gateway/soft/mote-gateway.go:210-226 | bytes that hold no match but are not noise take exactly the next frame, merged with what follows one of their tags |
| `CutFrames.AnyBytesThenStream` | mote-gateway/soft/mote-gateway.go:210-226 | after any bytes at all, the frames of a stream are found behind those of the bytes, all of them if what is left of the bytes is noise, and otherwise all but the first |
| `CutFrames.CutInPayload` | mote-gateway/soft/mote-gateway.go:73-97 | a record merged inside the hex payload has no payload and no metrics, and the second frame's source, LQI and RSSI |
| `CutFrames.CutInHeader` | mote-gateway/soft/mote-gateway.go:73-97 | a record merged after the payload joins the first frame's payload and metrics to the second frame's source, LQI and RSSI |
| `StoreForward.RetryWritesSamePoint` | mote-gateway/soft/mote-gateway.go:153-166 | tagging with RSSI and LQI is idempotent, so a retry writes an identical point |
| `StoreForward.PointFields` | mote-gateway/soft/mote-gateway.go:153-166 | every point has the sender's address, the time, and as fields the metrics with RSSI and LQI put in, even when there are no metrics |
| `StoreForward.AttemptKeepsAccount` | mote-gateway/soft/mote-gateway.go:137-175 | one write attempt with any outcome keeps the account of arrivals, queue and server log |
| `StoreForward.AtLeastOnceInOrder` | mote-gateway/soft/mote-gateway.go:266-272 | for any arrivals and write outcomes: confirmed then queued packets are the arrivals; every stored point is its packet's; the log without adjacent repeats is 0, 1, ... up to the confirmed ones or one more |
| `StoreForward.ServerSeesPrefix` | mote-gateway/soft/mote-gateway.go:137-176 | the log without adjacent repeats is a prefix of the arrivals with every confirmed packet and at most one more |
| `StoreForward.PushDrains` | mote-gateway/soft/mote-gateway.go:137-176 | without failures a call empties the queue and stores each packet once |
| `StoreForward.PushExact` | mote-gateway/soft/mote-gateway.go:137-176 | exactly what a call does, for any outcomes: how many packets are confirmed and removed, what is stored, and what the write it stops at leaves first in the queue |
| `StoreForward.Forwarder.TagHead` | mote-gateway/soft/mote-gateway.go:155-157 | the oldest packet's metrics get RSSI and LQI in place; no other packet changes |
| `StoreForward.Forwarder.WriteHead` | mote-gateway/soft/mote-gateway.go:139-175 | one attempt in place: log, list and metrics for each outcome; without a batch nothing is tagged |
| `StoreForward.Forwarder.PushInflux` | mote-gateway/soft/mote-gateway.go:137-176 | the loop in place stops at the first write that is not confirmed and removes the confirmed prefix |
| `StoreForward.Forwarder.OnPacket` | mote-gateway/soft/mote-gateway.go:266-272 | one turn of the receive loop in place: decode, append, push |
| `MeterReport.AcceptAbstracts` | mote-devboard/apps/node-teleinfo/teleinfo.c:129-149 | reading a line keeps the bits equal to the tags read and each field equal to the last value of its tag |
| `MeterReport.StepAbstracts` | mote-devboard/apps/node-teleinfo/teleinfo.c:160-175 | a line completes a report exactly when the last missing tag arrives, with the latest values, and then everything is forgotten |
| `MeterReport.MachineRefinesHistory` | mote-devboard/apps/node-teleinfo/teleinfo.c:117-175 | on every run and from every start, each line completes exactly the report that the readings since the last report call for |
| `MeterReport.CompletedIsDemanded` | mote-devboard/apps/node-teleinfo/teleinfo.c:117-175 | the list of all reports that a run of lines completes is the list that its readings call for |
| `MeterReport.FirstReportOrigin` | mote-devboard/apps/node-teleinfo/teleinfo.c:129-175 | a session's first report takes each value from the session's own lines if its tag was read in them, and otherwise from what an earlier session left |
| `MeterReport.CleanSession` | mote-devboard/apps/node-teleinfo/teleinfo.c:160-175 | from state 0 the reports depend on the session's lines only, whatever stale values the fields hold |
| `MeterReport.CleanExactly` | mote-devboard/apps/node-teleinfo/teleinfo.c:117-175 | the line machine completes, on every list of lines, exactly what those lines call for if and only if it starts with `state` 0 |
| `MeterReport.DirtySession` | mote-devboard/apps/node-teleinfo/teleinfo.c:79-91 | enabling reception does not clear `state`: with any bit left over, lines of the other two tags complete a report that holds the earlier session's value and is not due |
| `MeterReport.DirtySessionHappens` | mote-devboard/apps/node-teleinfo/teleinfo.c:79-91 | for every nonzero `state` two meter lines do that |
| `MeterReport.BaseLine` | mote-devboard/apps/node-teleinfo/teleinfo.c:129-135 | a BASE line stores the 9-digit number printed in it |
| `MeterReport.PappLine` | mote-devboard/apps/node-teleinfo/teleinfo.c:136-142 | a PAPP line stores the 5-digit number printed in it if and only if it is at most 32767 |
| `MeterReport.IinstLine` | mote-devboard/apps/node-teleinfo/teleinfo.c:143-149 | an IINST line stores the 3-digit number printed in it |
| `MeterFrames.ReadExactly` | mote-devboard/apps/node-teleinfo/teleinfo.c:129-149 | exactly which lines hold a reading: those of the three labels that are long enough |
| `MeterFrames.ColumnsRead` | mote-devboard/apps/node-teleinfo/teleinfo.c:129-149 | the columns that are read, whatever they hold |
| `MeterFrames.Int16Wraps` | mote-devboard/apps/node-teleinfo/teleinfo.c:140 | a value that does not fit 16 bits loses multiples of 65536 and nothing else |
| `MeterFrames.OtherMeterLines` | mote-sensors/mote-teleinfo/README.md:25-33 | the other lines of a meter's frame hold no reading |
| `MeterFrames.FrameReadings` | mote-devboard/apps/node-teleinfo/teleinfo.c:117-149 | a frame of the three labels with any other lines between, in any order, holds exactly the printed readings, in order |
| `MeterFrames.FrameReport` | mote-devboard/apps/node-teleinfo/teleinfo.c:117-175 | with one line of each label such a frame makes exactly one report from a clean start, with the three numbers printed |
| `MeterReport.ReadingRange` | mote-devboard/apps/node-teleinfo/teleinfo.c:130-149 | the range of the value that any accepted line can store |
| `MeterReport.ReportBound` | mote-devboard/apps/node-teleinfo/teleinfo.c:164-169 | a report is at most 45 bytes with a one-digit index and 51 with any uint8 index, so the 64-byte `snprintf` never truncates |
| `MeterReport.ReportBoundTight` | mote-devboard/apps/node-teleinfo/teleinfo.c:164-169 | both bounds are reached |
| `MeterReport.SnprintfExact` | mote-devboard/apps/node-teleinfo/teleinfo.c:166 | `snprintf` keeps a text that leaves room for the terminator, and as much as does of a longer one |
| `EndToEnd.ReportBytes` | mote-devboard/apps/node-teleinfo/main.c:77-85 | a report fits the printer's 8-bit byte counter and is made of bytes |
| `Sentinel.ProcessInStep` | mote-sensors/mote-teleinfo/main.c:177-204 | one line: the -1 form reports when the bit form does and no value is negative, with the same values |
| `Sentinel.FirstReportCompared` | mote-sensors/mote-teleinfo/main.c:177-211 | the -1 form is silent up to the line of the bit form's first report and sends the same report there if no value is negative, and nothing otherwise |
| `Sentinel.SentinelAgrees` | mote-sensors/mote-teleinfo/main.c:177-211 | both forms send the same first report on the same line, or none, if and only if, at the first line by which all three tags were read, the last value of no tag is negative |
| `Sentinel.FirstIsComplete` | mote-devboard/apps/node-teleinfo/teleinfo.c:129-175 | a clean session's first report falls on the line by which all three tags were first read, and holds the last values up to it |
| `Sentinel.SentinelAgreesOnMeters` | mote-sensors/mote-teleinfo/main.c:398-416 | they agree on every session whose lines store no negative value |
| `Sentinel.PappWraps` | mote-sensors/mote-teleinfo/main.c:184-188 | on a meter's BASE, PAPP and IINST lines they disagree if and only if the power is 32768 to 65535 or 98304 to 99999, which a 16-bit field holds as a negative number |
| `Sentinel.RepeatsAfterReport` | mote-sensors/mote-teleinfo/main.c:177-211 | a line handled while the fields are 0, as a report leaves them, completes another report if and only if it stores no negative value; whether such a line can still come is the matter of the next rows |
| `SensorSession.OffRun` | mote-sensors/mote-teleinfo/main.c:168-217 | while the interface has no power, what was sent followed by what the queued messages and the ring still call for stays the same, whatever happens |
| `SensorSession.ReportsAfterStop` | mote-sensors/mote-teleinfo/main.c:196-217 | once the thread has cut the power after a report, the session can send no more than the reports owed, it can send all of them, and there are as many as queued newline messages, or none if the ring's line stores a negative value; so a further report is possible if and only if a message is queued and that line stores no negative value |
| `SensorSession.SecondReport` | mote-sensors/mote-teleinfo/main.c:196-217 | every session with two reports passed through such a moment, with its first report just sent and more owed |
| `SensorSession.SecondReportHappens` | mote-sensors/mote-teleinfo/main.c:231-246 | a session in which it happens: a newline between the report and the power-off brings a second report, of zeros |
| `SensorSession.ByteMeaning` | mote-sensors/mote-teleinfo/main.c:231-246 | what each of the 256 bytes does while the interface has power: the eighth bit never matters |
| `SensorSession.OpeningHears` | mote-sensors/mote-teleinfo/main.c:398-405 | whatever came before, a session that main opens has power, unread fields and its meter's index, and the ring, queue and thread as they were |
| `SensorSession.EverySessionReports` | mote-sensors/mote-teleinfo/main.c:398-421 | every session can report, whatever the power was and the fields held before it |
| `SensorSession.ReportBeforeSessions` | mote-sensors/mote-teleinfo/main.c:196-217 | before the first session the fields are zero and the interface has power, so a newline alone sends a report of zeros under index 0 |
| `SensorSession.LeftoverComesFirst` | mote-sensors/mote-teleinfo/main.c:398-405 | what the ring held comes before a session's first line |
| `SensorSession.LeftoverMessageTaken` | mote-sensors/mote-teleinfo/main.c:398-405 | a newline message queued before makes the thread take the ring as it is |
| `SensorSession.NothingAfterEnd` | mote-sensors/mote-teleinfo/main.c:407 | after main has ended a session nothing is received, and no more is sent than was owed |
| `SensorSession.Processor.constructor` | mote-sensors/mote-teleinfo/main.c:274-287 | the initial state, with the interface on |
| `SensorSession.Processor.StartSession` | mote-sensors/mote-teleinfo/main.c:398-405 | main stores -1 in the three fields and powers the interface |
| `SensorSession.Processor.EndSession` | mote-sensors/mote-teleinfo/main.c:407 | main cuts the power at the end of a session |
| `SensorSession.Processor.RxCb` | mote-sensors/mote-teleinfo/main.c:231-246 | the interrupt in place, silent without power |
| `SensorSession.Processor.ThreadStep` | mote-sensors/mote-teleinfo/main.c:168-217 | one step of the thread in place: message, ring, line, power-off |
| `SensorSession.Processor.ReadLine` | mote-sensors/mote-teleinfo/main.c:177-194 | the three branches in place |
| `SensorSession.Processor.CheckLine` | mote-sensors/mote-teleinfo/main.c:177-211 | the line is read and, when no field is negative, the report sent and the fields set to 0 |
| `Uart.AssemblyIsSplit` | mote-devboard/apps/node-teleinfo/teleinfo.c:56-74 | with the thread keeping up, the lines taken are the received printable text split at newlines, each cut to the ring's last 128 bytes |
| `Uart.ParityDropped` | mote-devboard/apps/node-teleinfo/teleinfo.c:60 | the eighth bit of a byte is dropped and the other seven are kept; of these, newlines and printable bytes count |
| `Uart.SameLines` | mote-devboard/apps/node-teleinfo/teleinfo.c:56-74 | whatever eighth bits are sent, the same lines are taken |
| `Uart.LastBytesExact` | mote-devboard/apps/node-teleinfo/teleinfo.c:56-74 | a line longer than the ring is its last 128 bytes |
| `MeterText.LinesWithParity` | mote-devboard/apps/node-teleinfo/teleinfo.c:56-74 | a meter's lines sent with any parity bits are taken as they are |
| `Uart.LaterLinesAreOwn` | mote-devboard/apps/node-teleinfo/teleinfo.c:117-125 | when the thread empties the ring before every next byte, what the ring held before reaches the first line only |
| `Uart.OwnSession` | mote-devboard/apps/node-teleinfo/teleinfo.c:117-175 | when the thread empties the ring before every next byte, from `state` 0, an empty ring and no queued message, every report is what the bytes call for |
| `Reports.RunFollows` | mote-devboard/apps/node-teleinfo/teleinfo.c:117-187 | after every interleaving, the results and the reports built are those of the line machine on the lines that the thread has taken, the line in its hands set apart |
| `Reports.ReportsOfRun` | mote-devboard/apps/node-teleinfo/teleinfo.c:117-187 | after every interleaving, the reports built are, in number and order, those that the readings in the lines handled call for |
| `OwnReadings.OwnExactly` | mote-devboard/apps/node-teleinfo/teleinfo.c:79-91 | for every interleaving: the reports of the session about to open are those called for by the lines taken from then on, made of bytes received from then on, if and only if `state` is 0, the ring is empty, and the thread neither holds a line with a reading nor is building a report; with the thread's priority, if and only if `state` is 0 and the ring is empty |
| `OwnReadings.CleanOwns` | mote-devboard/apps/node-teleinfo/teleinfo.c:56-187 | from such a state every continuation keeps this, over any number of sessions |
| `OwnReadings.BytesLeft` | mote-devboard/apps/node-teleinfo/teleinfo.c:117-125 | with anything left in the ring, some run of the session breaks it, within the priority if the run before was |
| `OwnReadings.ValueLeft` | mote-devboard/apps/node-teleinfo/teleinfo.c:129-175 | so does some run with a bit, a reading or a report left over |
| `Sessions.Serves` | mote-devboard/apps/node-teleinfo/teleinfo.c:56-187 | when the thread comes to rest before every next byte, the session's report is the first that line assembly and the line machine complete, and none follows |
| `Sessions.BitShows` | mote-devboard/apps/node-teleinfo/teleinfo.c:79-91 | with any bit set at the start, whatever the ring holds, some bytes make a first report that they do not call for |
| `Sessions.RingShows` | mote-devboard/apps/node-teleinfo/teleinfo.c:117-125 | with anything left in the ring and no bit set, some bytes do so too |
| `Sessions.CleanStart` | mote-devboard/apps/node-teleinfo/teleinfo.c:79-91 | in every run where main is about to open a session and the thread is at rest: if the thread keeps up, so that it is at rest before the first byte and before every next one, the session reports exactly what its own bytes call for, whatever they are, if and only if `state` is 0 and the ring is empty or will be taken for a queued message as a line without a reading |
| `MixedReport.BytesLeftOver` | mote-devboard/apps/node-teleinfo/teleinfo.c:95-100 | a run within the priority that comes to open a session with any beginning of a line in the ring |
| `MixedReport.MessageLeftOver` | mote-devboard/apps/node-teleinfo/teleinfo.c:56-74 | a run within the priority that comes to open a session with `state` 0, an empty ring, the thread asleep and a message queued |
| `MixedReport.ReportMissed` | mote-devboard/apps/node-teleinfo/teleinfo.c:79-91 | keeping up is needed: from such a state, a BASE line that begins before the wake-up is cut in two, and a session that receives a line of each kind has no report |
| `MixedReport.ReportMixesMeters` | mote-devboard/apps/node-teleinfo/teleinfo.c:79-91 | a run that respects the thread's priority, for all readings: meter 1 sends BASE only, meter 2 the other two, and the report goes out under index 2 with meter 1's BASE |
| `Mote.InRangeKept` | mote-devboard/apps/node-teleinfo/teleinfo.c:56-196 | every step keeps the ring at 128 bytes, reception on only in the session of its meter, and the bits clear from sending to sleep |
| `Mote.OwnedKept` | mote-devboard/apps/node-teleinfo/main.c:302-309 | every step keeps every buffer, in order of allocation, in exactly one of freed, held by main, queued, in the thread's hands |
| `Mote.QueueShortKept` | mote-devboard/apps/node-teleinfo/main.c:280-310 | every step keeps main's queue no longer than the wake-ups since it was drained, plus one |
| `Mote.SessionsCoverKept` | mote-devboard/apps/node-teleinfo/teleinfo.c:79-91 | every step keeps reports covered by sessions, even when the thread reports between the two halves of enabling |
| `Mote.SpentKept` | mote-devboard/apps/node-teleinfo/teleinfo.c:95-100 | every step keeps: with a session open and reception off before the thread rests, what was received is not enough for a report |
| `Mote.EveryRun` | mote-devboard/apps/node-teleinfo/main.c:273-330 | all of these hold after every interleaving of interrupt, thread and main |
| `Mote.ProtocolSafety` | mote-devboard/apps/node-teleinfo/teleinfo.c:160-190 | after every interleaving: reports sent <= sessions opened; at most 3 report buffers exist; the thread never blocks on main's 8-slot queue |
| `Mote.BufferOwnership` | mote-devboard/apps/node-teleinfo/main.c:302-309 | after every interleaving: allocated = freed + alive, freed buffers are 0, 1, ... each once and after sending, the others are each in one place |
| `Mote.SentInOrder` | mote-devboard/apps/node-teleinfo/main.c:302-309 | main sends the reports unchanged and in the order in which they were built |
| `Mote.NoByteLost` | mote-devboard/apps/node-teleinfo/teleinfo.c:56-74 | after every interleaving without overflow, lines taken followed by the ring are the accepted bytes in order |
| `Mote.ByteMeaning` | mote-devboard/apps/node-teleinfo/teleinfo.c:56-74 | what each of the 256 bytes does: ignored, queued, or put into the ring, with reception, queue and ring full or not; the eighth bit never matters |
| `Mote.RunIgnoresParity` | mote-devboard/apps/node-teleinfo/teleinfo.c:60 | no run depends on the eighth bits of the bytes received |
| `Mote.OpeningHears` | mote-devboard/apps/node-teleinfo/teleinfo.c:79-91 | a session that main opens receives between the two halves of the opening and after them, wakes a sleeping thread, and clears nothing |
| `Mote.OneLinePerMessage` | mote-devboard/apps/node-teleinfo/teleinfo.c:117-125 | after every interleaving, each newline that found room in the queue made the thread take one line or still waits to |
| `Mote.MetersInRange` | mote-devboard/apps/node-teleinfo/main.c:280-290 | reception is on only for meters 1 and 2 and only in the session of that meter |
| `Mote.EachIndex` | mote-devboard/apps/node-teleinfo/teleinfo.c:163-169 | each of the three reads of the index for a report gives the meter whose session is open at that moment, and 0 when none is, whatever happens between the reads |
| `Mote.IndexOfReport` | mote-devboard/apps/node-teleinfo/teleinfo.c:163-169 | when the three reads fall together, a report carries the index of the meter whose session is open when it is built, and 0 when none is, after every interleaving |
| `Mote.IndexRace` | mote-devboard/apps/node-teleinfo/teleinfo.c:160-169 | main ending a session between the third reading and the printing makes the report carry index 0 |
| `Mote.ReportsTyped` | mote-devboard/apps/node-teleinfo/teleinfo.c:129-169 | in every run the values of every report built fit their 16 and 32 bit types and its index is at most 2 |
| `Mote.KeepsUp` | mote-devboard/apps/node-teleinfo/teleinfo.c:117-149 | when the thread keeps up, ring and results are what line assembly and the report machine say |
| `Mote.ReportsOnTime` | mote-devboard/apps/node-teleinfo/teleinfo.c:160-187 | the newline that completes a report queues it with the machine's values and the meter's index, and puts the thread to sleep |
| `Attained.ThreeBuffers` | mote-devboard/apps/node-teleinfo/main.c:280-310 | a run in which three buffers exist at once: the bound is tight |
| `Attained.FirstNewlineHeard` | mote-devboard/apps/node-teleinfo/teleinfo.c:217-225 | the thread waits from the start: the first newline reaches it before main's first wake-up |
| `Attained.IndexZeroHappens` | mote-devboard/apps/node-teleinfo/teleinfo.c:160-169 | a run in which a report carries index 0 |
| `Attained.NextIndexHappens` | mote-devboard/apps/node-teleinfo/teleinfo.c:160-169 | a run in which a report completed in meter 2's session carries index 1 |
| `Attained.IndexesDiffer` | mote-devboard/apps/node-teleinfo/teleinfo.c:163-169 | a run in which the three reads of the index for one report give 2, 0 and 1 |
| `Attained.WakeupLost` | mote-devboard/apps/node-teleinfo/teleinfo.c:179-190 | a run in which a wake-up is lost and a session passes with the thread asleep and no report |
| `Attained.WakeupLostExactly` | mote-devboard/apps/node-teleinfo/teleinfo.c:179-190 | at any wake-up of any run: the thread can come to sleep through the session without a report if and only if it was between sending and sleeping and had sent before the session was opened |
| `Priority.BlockedMeansStuck` | mote-devboard/apps/node-teleinfo/teleinfo.h:5 | the thread counts as blocked exactly when a step of it does nothing |
| `Priority.OneReportKept` | mote-devboard/apps/node-teleinfo/teleinfo.c:160-190 | with the thread's priority every step keeps: one report per session, and none can follow it |
| `Priority.OnePerSession` | mote-devboard/apps/node-teleinfo/main.c:280-290 | with the thread's priority each session sends at most one report, no wake-up is lost, and at most two buffers exist |
| `Priority.IndexOfOpenMeter` | mote-devboard/apps/node-teleinfo/teleinfo.c:166-169 | with the thread's priority a report is built only in an open session and carries that meter's index |
| `Priority.IndexesAgree` | mote-devboard/apps/node-teleinfo/teleinfo.c:163-169 | with the thread's priority the three reads of the index agree |
| `Node.Teleinfo.constructor` | mote-devboard/apps/node-teleinfo/teleinfo.c:217-225 | the initial state |
| `Node.Teleinfo.RxCb` | mote-devboard/apps/node-teleinfo/teleinfo.c:56-74 | the interrupt in place |
| `Node.Teleinfo.MsgReceive` | mote-devboard/apps/node-teleinfo/teleinfo.c:118 | a queued newline message is taken |
| `Node.Teleinfo.RingbufferGet` | mote-devboard/apps/node-teleinfo/teleinfo.c:123-125 | the whole ring becomes the line and the ring is empty |
| `Node.Teleinfo.ReadLine` | mote-devboard/apps/node-teleinfo/teleinfo.c:129-149 | the three branches in place |
| `Node.Teleinfo.CheckLine` | mote-devboard/apps/node-teleinfo/teleinfo.c:129-160 | the line is read and the bits compared with all three |
| `Node.Teleinfo.BuildReport` | mote-devboard/apps/node-teleinfo/teleinfo.c:163-175 | the report is printed with the current index, read once here, and the results are cleared |
| `Node.Teleinfo.MsgSend` | mote-devboard/apps/node-teleinfo/teleinfo.c:177-179 | the message is queued; there is always room |
| `Node.Teleinfo.StopReception` | mote-devboard/apps/node-teleinfo/teleinfo.c:185 | reception goes off after the report is queued |
| `Node.Teleinfo.ThreadSleep` | mote-devboard/apps/node-teleinfo/teleinfo.c:187 | the thread sleeps |
| `Node.Teleinfo.EnableRx` | mote-devboard/apps/node-teleinfo/teleinfo.c:79-89 | the meter is set, before the wake-up |
| `Node.Teleinfo.ThreadWakeup` | mote-devboard/apps/node-teleinfo/teleinfo.c:90 | a sleeping thread is woken; waking any other does nothing |
| `Node.Teleinfo.DisableRx` | mote-devboard/apps/node-teleinfo/teleinfo.c:95-100 | reception goes off at the end of a session |
| `Node.Teleinfo.MsgTryReceive` | mote-devboard/apps/node-teleinfo/main.c:302 | the oldest message is taken, or the cycle ends |
| `Node.Teleinfo.DataTx` | mote-devboard/apps/node-teleinfo/main.c:306 | the text in the buffer is transmitted |
| `Node.Teleinfo.Free` | mote-devboard/apps/node-teleinfo/main.c:308 | the buffer is freed after that |
| `DumpHex.DumpBytes` | mote-gateway/hard/myutils.c:48-71 | the inner loop with its 8-bit counters reads each byte of its row once, in bounds and in order, and stops where the packet ends |
| `DumpHex.DumpRow` | mote-gateway/hard/myutils.c:42-73 | one row with its cells, its alignment and its printable column |
| `DumpHex.Dump` | mote-gateway/hard/myutils.c:34-76 | the loops end without counter wrap, in the row where the packet ends, having printed all rows |
| `DumpHex.GutterColumn` | mote-gateway/hard/myutils.c:42-73 | every row, full or not, byte by byte: mark, lower-case cells, blanks up to column 50, and there the printable column with dots for other bytes |
| `DumpHex.ReadBack` | mote-gateway/hard/myutils.c:62-70 | reading back the hex columns recovers the packet |
| `EndToEnd.ReportDecodes` | mote-devboard/apps/node-teleinfo/teleinfo.c:166-169 | a report of either firmware decodes to exactly its three metrics, for every uint8 index and all int16 and int32 values |
| `EndToEnd.ReportSplits` | mote-devboard/apps/node-teleinfo/teleinfo.c:166-169 | a report says, in this order, apparent power, total and current under its index, with a semicolon at the end in the newer firmware only |
| `EndToEnd.CarrierValid` | mote-devboard/apps/node-teleinfo/main.c:77-85 | a frame of any report is a frame that the printer and the scanner handle |
| `EndToEnd.CommonFrame` | mote-devboard/apps/node-teleinfo/main.c:297-298 | so is the frame that main transmits before the reports in every cycle, and it decodes to its version, battery level and loop count |
| `EndToEnd.ReportsArrive` | mote-gateway/soft/mote-gateway.go:206-231 | in any stream of frames, of this node or others, with noise between and cut into any reads: the decoded packets are the first frames in order, and every report among them has exactly its metrics |
| `EndToEnd.AllReportsArrive` | mote-gateway/soft/mote-gateway.go:213-230 | with as many further non-empty reads as frames, whatever they hold, packet i is frame i, and every report among them decodes to exactly its metrics |
| `EndToEnd.AnyPointShowsPacket` | mote-gateway/soft/mote-gateway.go:137-272 | for any bytes at all, merged and broken records included: every point stored has the address, time, metrics, RSSI and LQI of the packet that its record decodes to |
| `EndToEnd.PointsOnServer` | mote-gateway/soft/mote-gateway.go:266-272 | for any stream of frames through scanner, decoder and queue with any write outcomes: every point stored is that of its frame, with the frame's address, metrics, RSSI and LQI, and without adjacent repeats they are the first frames in order |
| `EndToEnd.TransmittedIsMade` | mote-devboard/apps/node-teleinfo/main.c:302-309 | message n that main transmits holds the n-th report built, typed, with index at most 2, and the n-th that the lines taken by the thread call for |
| `EndToEnd.NodeToServer` | mote-gateway/soft/mote-gateway.go:206-272 | from the lines of the meters to the server, for every run of the node, whatever the radio loses and whatever frames stand between: the point stored for a message of the node holds the report that the lines taken by its thread call for in that place |
| `EndToEnd.MeterToMetrics` | mote-devboard/apps/node-teleinfo/teleinfo.c:117-175 | from a meter's bytes to the decoded metrics: in a session that opens with the thread at rest and nothing left over, and in which the thread keeps up, the node builds the report of the last value of each tag up to the line that completes them, and its frame decodes to these |

## Left out

- The RIOT kernel, radio, packet buffer, timers, GPIO and LEDs: foreign code. The message queues, sleep and wake-up, and the ring buffer are kept as small models; a message from the interrupt to a full queue is dropped, one to a waiting thread is handed over at once.
- The serial port, the HTTP client, logging, flags and the clock: the bytes of a read, the outcome of a write and the time of a read are parameters. A client that could not be created is not modelled.
- Failure of malloc: the source does not check it.
- The ring buffer's own loop and an interrupt in the middle of `ringbuffer_get`: the get is one step.
- A line of exactly 128 bytes leaves the C buffer without a terminator; the model takes its length as 128, which meets every length test as any longer text would.
- The older firmware's blinker thread: the message to it never blocks in the model.
- The end of one session of the older firmware and the start of the next as a run: a session may start in any state of ring, queue and thread, except between a report and its power-off.
- Several UARTs: only the one of the meters is ever registered.
- The type of `char`: bytes are printed as unsigned, as on the ARM boards of the repository.
- Overflow in `atoi`: the source cuts each field to at most 9 characters before it is read, so it cannot happen.
- Decoder.Packet.ReadEntries: TEMP and HUMI values are kept as text and not read as floats, since Go's float parser is a library of its own.
- Decoder.Packet.DecodePacket: the same values are text in its result.
- Node.Teleinfo.BuildReport: `rx_teleinfo` is read once, while the arguments of `snprintf` name it three times (mote-devboard/apps/node-teleinfo/teleinfo.c:167-169). `Mote.EachIndex` says what each read gives; a report with different indices, possible only without the thread's priority, is not built by the model.
- The radio itself: which of a node's messages the gateway hears, in which order, and with what address, LQI and RSSI, is a parameter.
- Pktdump.Dump: payloads over 255 bytes make the 8-bit loop counter run forever; they are a precondition.
- DumpHex.Dump: packets over 255 bytes, whose offsets the 8-bit counter cannot hold, are excluded.
- DumpHex.DumpRow: the row buffer is the text collected so far instead of a zeroed array of 17 characters.
- The frame with version, battery and loop count is not a step of main's model: it shares no state with the reports. It may stand anywhere in the streams of `EndToEnd`.
- The BME280 and LoRa nodes, shell commands, LED blinking and board files.
- Meter checksums and parity: the source checks neither.
