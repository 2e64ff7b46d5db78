# ESPView in Dafny

ESPView mirrors the screen of an ESP32 on a PC. The firmware turns the drawing calls of its UI into a stream of
`FRAME_BEGIN`, `FRAME_RECT` and `FRAME_END` messages; these are cut into CRC-protected packets, sent over UART or TCP,
parsed, reassembled into frames and painted. This project models that path from the UI's `writeRect` to the pixels on
the PC, together with the smaller state machines around it, and proves what the path is for.

Layout, following the data:

| files | what they hold |
|---|---|
| `Wire`, `SenderState`, `SplitPump` | the messages; `RemoteDisplay` as values; `pump` split at its lock boundaries with UI calls in every gap |
| `RemoteDisplay`, `RectSource`, `FrameSink` | `RemoteDisplay` as the class it is: a ring of preallocated slots and fields changed in place, proved to refine `SenderState` method by method |
| `FrameAssembler`, `FrameReceiver`, `FrameStreams`, `Screen` | the PC side: the frame assembler with the callbacks that collect rectangles, what it makes of any stream of messages, and the image as an array of pixels |
| `Fidelity`, `Continuity`, `Accounting`, `Bases`, `Runs`, `EndToEnd` | what holds of every run |
| `Delivery`, `Answers` | from flush to commit; what `writeRect` answers and what the counters count |
| `Races`, `Witnesses`, `LooseSchedules`, `Progress` | exactly when those results stop holding, runs in which they do, what is left then, when the sender gets stuck and what frees it |
| `Crc`, `CrcCheck`, `Packets`, `Messages`, `BrokenMessages`, `SequenceGaps`, `MessageEncoder`, `StreamDecoder`, `OverTheWire` | CRC-32, packets and their two parsers, chunked messages, whole, broken and with packets missing, and the bytes behind the sender's log |
| `Text`, `NumberParsers`, `Telemetry`, `TelemetryFields`, `TelemetryPrinter`, `DisplayLine` | the telemetry lines, printed and parsed |
| `Handoff`, `Preview`, `Ipv4` | the TCP handoff, preview frame numbers, dotted-decimal addresses |

How a run is described. A `Sender` carries a `log` of every message handed to the sink with its fate, and a `hist` of
the frames the UI built; no transition decides anything by them. The sink is a script that may deliver, refuse, cut
short (`Torn`) or damage (`Corrupted`) each message independently; it answers kOk for the first and the last.
`Fidelity.Heard(log)` is the receiver at the other end, and `OverTheWire.HeardOverTheWire` says that it is what comes
out of decoding the bytes. Actions are UI calls, session calls and single steps of `pump`; session and configuration
calls (`setEnabled`, `onConnected`, `onDisconnected`, `init`) come only between pumps, because the code does not protect
them inside one. `Runs.LegalRun` asks for no more than that, and that pixels passed to `writeRect` are readable.

Phase 3 of `pump` frees the slot, and finds the queue empty, in one critical section and decides the end of the frame in
another. A `writeRect` in between does no harm by itself. Two decisions do, and they name the runs the results are
about: `SplitPump.Strands`, clearing an abort although the first slot of the aborted frame is queued, and
`SplitPump.Cuts`, deciding an end although the queue has been refilled. A run without the first is tame, one without
both is calm.

## Main results

1. `Runs.CommitsAreUiFrames`: for every sink and every calm interleaving, the committed frames are frames of the UI,
   rectangle for rectangle and in order, each flushed and never dropped. `LooseSchedules.CommitsAreFrameStarts` is what
   is left in every tame one, and `Runs.OneFrameAtATime` what the two sides share in every tame one.
2. `Runs.PartialsPatchTheirPredecessor`: if kOk means delivered, a committed PARTIAL frame directly follows the
   frame committed before it. `Bases.PartialsFollowAClosedFrame` is the sender's half, without that assumption and in
   every tame run.
3. `Runs.UninterruptedRuns`: with `pump` as one call both hold for every schedule.
4. `EndToEnd.ScreenShowsTheUi`: the image is a FULL frame of the UI and the unbroken run of PARTIAL frames after it, and
   it is there exactly while the receiver has a base. `EndToEnd.PixelIsTheUis` gives the colour of a pixel.
5. `Delivery.FlushedFrameArrives`: at whatever point of whatever tame run the UI flushes, if what is still to be sent of
   the frame arrives, as what has been sent of it did, `pump` makes the receiver commit it whole, and the sender is ready
   for the next one. `Delivery.UninterruptedArrives` is the same after any calls with `pump` as one call, and
   `Delivery.GivenUpFrameEnds` what becomes of a frame that was given up. `pump` gives one up only if one of its
   rectangles could not be sent.
6. `FrameStreams.CommitIff`: exactly when the frame assembler commits, and what, on any stream of payloads, decoder errors
   and session restarts.
7. `Answers.FillsUp`, `Answers.RoomForOne`: as many rectangles as there are free slots are accepted, in order, and a pump
   makes room for one more. `Answers.CountersAddUp`: the counters are those of an observer of the run.
8. `Runs.WireIsOrderly`: every FRAME_END closes the last FRAME_BEGIN the sink took, once, and unless aborted carries the
   counts of exactly the rectangles sent since; the statistics agree with the log.
9. `Packets.SplittingIsInvisible`, `Packets.StreamRoundTrip`, `Packets.OneDamagedByte`, `Packets.FourDamagedBytes`, and
   for the chunked messages `Messages.CuttingIsInvisible` and `Messages.MessagesRoundTrip`. `SequenceGaps.LostBlock`:
   packets missing in between are noticed, and nothing is joined across them, unless they are a multiple of 2^16.
10. `OverTheWire.HeardOverTheWire`: packets damaged, messages cut short and sessions restarted, the receiver behind the
    bytes is the one read off the sender's log, however the bytes are cut.

## Where the code falls short of its own rules

Each of these is stated with the condition under which the rule holds, exactly where one step decides it, and the first
four with a run, from the start, in which it fails.

- *An end can overtake rectangles.* A `writeRect` and `flush` between the two critical sections of phase 3
  (shared/display/remote_display.cpp:393-427) make it send a FRAME_END that leaves out the new rectangles, and the
  receiver commits the shortened frame (`Witnesses.RaceCutsAFrame`, every message delivered).
  `Races.CommitIsWholeIff`: the committed frame is whole exactly if the queue is still empty when its end is decided.
- *A dropped frame can be committed.* If, in that gap, a frame is opened and dropped, the decision clears its abort while
  its first slot is still queued (`SplitPump.StrandsIff` says exactly when); pump begins the frame after all, and if the
  FRAME_BEGIN of the next frame is refused, the end of that one closes it. The receiver then commits a frame that the UI
  dropped and never flushed (`Witnesses.DroppedFrameIsCommitted`). A frame can be opened there only when the slot just
  freed was a leftover: of a frame whose end overtook it, or of one that was refilled and dropped in the same gap, so
  that its aborted end left slots queued.
- *A PARTIAL frame can be opened before its base is settled.* While a FRAME_END is being sent the next frame may start,
  and `needFull_` is set only when the send has failed (shared/display/remote_display.cpp:297, 310, 437, 450). The
  receiver then commits a PARTIAL frame over a screen that lacks the frame before it (`Witnesses.PartialSkipsAFrame`).
  It has its base exactly if that end is delivered (`Races.GapStartHasBaseIff`), and on the sender's side its beginning
  rests on a closed frame exactly if that end is accepted (`Bases.GapBeginIff`); runs in which no such frame is opened
  are quiet (`Continuity.Quiet`).
- *`onConnected` forgets no frame.* It lets a frame of the old session begin in the new one
  (`Witnesses.OldFrameBegins`). `Bases.OldBeginIff`: the next beginning rests on nothing exactly if the frame in flight
  is PARTIAL, not aborted and not yet begun; runs in which a session finds no such frame are tidy (`Bases.Tidy`). The
  receiver, which has lost its base by then, does not commit it.
- *A frame too large for FRAME_END is counted as sent.* The sender narrows its counts to 16 and 32 bits; the receiver
  refuses the 65536th rectangle and the 2^32nd byte. `Races.WholeFrameCommitsIff` is the exact condition.
- *A flushed frame whose FRAME_BEGIN is refused leaves the sender busy*, exactly then
  (`Progress.FlushedFrameSticksIff`): `pump` has nothing to send, and `writeRect` answers kFrameBusy, until
  `dropPendingFrame` is called, which helps in every state (`Progress.StuckStays`, `Progress.DropRecovers`).
- *A message cut short is continued by the next one of its type.* The endpoint gives the packet numbers that were not
  sent to the next message, so that the decoder sees no gap. `BrokenMessages.SplicedIff`: the two are joined without an
  error exactly if their types and flags agree.
- *65536 lost packets in a row go unnoticed*, and multiples of that: packet numbers have 16 bits. A gap is reported in
  every other case (`SequenceGaps.LostBlock`).
- *Two header bytes are covered by nothing.* Bytes 18 and 19 of a packet are neither checked nor under the CRC
  (`Packets.OneDamagedByte`).
- *The `disp` line is printed without clamps* into 64 bytes
  (esp32/components/lvgl_port/src/lvgl_port.cpp:383-393). It is recovered exactly if it has at most 63 characters
  (`DisplayLines.DispSurvivesIff`).
- *Addresses with leading zeros do not survive* being converted and printed again; all other valid texts do
  (`Ipv4.TextSurvivesIff`).

## Model

| member | source | states |
|---|---|---|
| `Runs.CommitsAreUiFrames` | shared/display/remote_display.cpp:113-456 | whatever the sink does and wherever UI calls fall between the steps of pump, as long as no end is decided over a refilled queue and no abort is cleared with its frame's first slot queued, the receiver commits only complete frames of the UI, rectangle for rectangle, in order, each flushed and never dropped |
| `Runs.PartialsPatchTheirPredecessor` | shared/display/remote_display.cpp:144-154 | in such runs, if kOk means delivered, counts fit and no PARTIAL frame is opened while a failing end is being sent, every committed PARTIAL frame is the UI's next frame after the one committed before it |
| `Runs.UninterruptedRuns` | shared/display/remote_display.cpp:250-456 | with pump as one call both results hold for every schedule, the first for every sink, the second for every pattern of failed sends |
| `Runs.WireIsOrderly` | shared/display/remote_display.cpp:261-313 | in every calm run, every FRAME_END closes the last accepted FRAME_BEGIN, once; unless aborted it is non-empty and carries exactly the counts of that frame's rectangles, all sent since; the statistics are those of the log |
| `Runs.QueueIsOfOneFrame` | shared/display/remote_display.cpp:144-165 | at every point of every run, raced or not, all queued slots carry the current frame id |
| `Runs.OneFrameAtATime` | shared/display/remote_display.cpp:138-178 | at every point of every run in which no abort is cleared with its frame's first slot queued: a pending abort names the current frame, an open wire frame is the current one and still owed an end, and sent plus queued equals accepted, in rectangles and in bytes |
| `Runs.GapKeepsTheQueue` | shared/display/remote_display.cpp:159-172 | from any state, no UI call in a gap of pump changes a queued slot, so the one being sent is never overwritten |
| `Runs.PumpIsItsSteps` | shared/display/remote_display.cpp:250-456 | from any state, pump without interference is the run of its steps |
| `Runs.RunKeeps` | shared/display/remote_display.cpp:113-456 | every tame run keeps the invariant tying the UI side, the queue, the wire side and the point reached in pump to one frame |
| `Delivery.FlushedFrameArrives` | shared/display/remote_display.cpp:250-456 | from every point between pumps of every tame run with a frame being built or flushed: if nothing sent of it was lost, the messages still due (one per slot, the beginning if it is still to come, the end) are delivered, its counts and messages fit and a PARTIAL frame finds a base, then flush and queued + 1 pumps send exactly these messages, the receiver commits exactly this frame, and the sender counts it, is free and has not asked for FULL; and in every such run a pending abort means that the UI dropped the frame or that one of its rectangles did not go out |
| `Delivery.UninterruptedArrives` | shared/display/remote_display.cpp:181-456 | the same after any UI and session calls whatever with pump as one call |
| `Delivery.GivenUpFrameEnds` | shared/display/remote_display.cpp:261-342 | from every point between pumps of every tame run with an abort pending, queued + 1 pumps free the slots without sending them, close the frame with an aborted end exactly if it was begun, commit nothing, and leave the sender free with FULL requested |
| `Delivery.GivesUpIff` | shared/display/remote_display.cpp:345-388 | from any state, a step of pump raises an abort and counts a dropped frame exactly if a rectangle of the open frame does not go out, and asks for FULL exactly if a message does not |
| `Delivery.ActCarried` | shared/display/remote_display.cpp:113-456 | every tame action keeps the agreement between what has been sent of a frame, unharmed, and what the receiver has collected of it |
| `Answers.AnswerIff` | shared/display/remote_display.cpp:138-158 | in every state pump and UI can leave behind, a valid writeRect is answered kOk, kQueueFull, kFrameBusy or kFrameAborted exactly by what is in flight |
| `Answers.RefusedIff` | shared/display/remote_display.cpp:113-136 | the call's own faults are found in the order listed, and leave no trace |
| `Answers.InitIff` | shared/display/remote_display.cpp:81-111 | init succeeds exactly for sides of 1 to 4096 and RGB565, and then frees the sender and takes the new size |
| `Answers.FillsUp` | shared/display/remote_display.cpp:144-178 | of any number of valid writeRects with no pump between, exactly as many as there are free slots are accepted and staged, in order, for one frame, the first marked; every later one is answered kQueueFull |
| `Answers.FullRefuses` | shared/display/remote_display.cpp:155-158 | with every slot in use each of them changes the counter of refusals and nothing else |
| `Answers.RoomForOne` | shared/display/remote_display.cpp:393-396 | after one pump of a full queue, unless it gave the frame up, exactly one more is accepted |
| `Answers.StartsOver` | shared/display/remote_display.cpp:81-231 | reconnecting, init, or switching off and on frees the sender from any state, and the next valid writeRect opens a FULL frame of the screen with that rectangle |
| `Answers.CountersAddUp` | shared/display/remote_display.cpp:139-175 | in every legal run, raced or not, the UI's frames hold exactly the rectangles accepted, and refusals, dropped rectangles, dropped frames and the queue's peak are those an observer counts |
| `Bases.PartialsFollowAClosedFrame` | shared/display/remote_display.cpp:293-313 | for every sink and every tame run, a FRAME_BEGIN(PARTIAL) is offered only if the frame with the preceding id was closed in the same session by an accepted, non-aborted end, provided no PARTIAL frame is opened while a failing end is being sent and no session starts with a PARTIAL frame yet to be begun |
| `Bases.UninterruptedBegins` | shared/display/remote_display.cpp:144-154 | the same for pump as one call, with only the start of a session left as a condition |
| `Bases.OldBeginIff` | shared/display/remote_display.cpp:210-214 | after onConnected the beginning pump offers next rests on nothing exactly if a PARTIAL frame, not aborted, is in flight and not yet begun |
| `Bases.GapBeginIff` | shared/display/remote_display.cpp:301-312 | the beginning of a PARTIAL frame opened while an end is being sent rests on a closed frame exactly if that end is accepted |
| `EndToEnd.ScreenShowsTheUi` | pc/src/virtual_screen_widget.cpp:50-79 | under the conditions of `Runs.PartialsPatchTheirPredecessor` an image is shown exactly while the receiver has a base, and it consists of a FULL frame of the UI and all PARTIAL frames the UI made after it up to the last committed one, each flushed and not dropped |
| `EndToEnd.ScreenShowsTheUiUninterrupted` | pc/src/virtual_screen_widget.cpp:50-79 | the same for every schedule with pump as one call |
| `EndToEnd.ScreenFollows` | pc/src/serial_worker.cpp:342-369 | committed frames handed on keep the screen and the assembler's base in step |
| `EndToEnd.PixelIsTheUis` | pc/src/virtual_screen_widget.cpp:100-128 | where the FULL frame of that run paints, a pixel has the colour the UI drew there last, ever |
| `LooseSchedules.CommitsAreFrameStarts` | shared/display/remote_display.cpp:390-456 | in every tame run, ends overtaking rectangles or not, each commit is a non-empty beginning of one flushed frame, and commits follow the order of the frames |
| `SplitPump.StrandsIff` | shared/display/remote_display.cpp:427-432 | after the closing decision the first slot of a frame is queued with nothing in flight exactly if the decision cleared an abort while it was queued |
| `Races.EndIsCompleteIff` | shared/display/remote_display.cpp:393-427 | the end decided in phase 3 accounts for every accepted rectangle exactly if the queue is still empty |
| `Races.CommitIsWholeIff` | shared/display/remote_display.cpp:393-427 | once delivered, that end makes the receiver commit the frame without the rectangles still queued, whole exactly if there are none |
| `Witnesses.RaceCutsAFrame` | shared/display/remote_display.cpp:390-427 | a run from the start, every message delivered, in which a flushed frame of two rectangles is committed with one |
| `Witnesses.DroppedFrameIsCommitted` | shared/display/remote_display.cpp:406-432 | a run from the start in which the receiver commits a frame the UI has dropped and never flushed |
| `Witnesses.PartialSkipsAFrame` | shared/display/remote_display.cpp:441-452 | a run from the start, phase 3 not raced, in which a PARTIAL frame is committed over the frame before the lost one |
| `Witnesses.OldFrameBegins` | shared/display/remote_display.cpp:210-214 | a run from the start in which a PARTIAL frame of the old session is begun in the new one |
| `Witnesses.OneSlot` | shared/display/remote_display.cpp:315-395 | a queue of one slot goes from phase 1 to the freed slot in five steps, beginning and rectangle settled in that order |
| `Witnesses.PlaysIsRun` | shared/display/remote_display.cpp:113-456 | the runs shown step for step are legal runs |
| `Races.GapStartHasBaseIff` | shared/display/remote_display.cpp:301-312 | a frame started while the previous end is being sent is PARTIAL, and has its base exactly if that end is delivered |
| `Races.WholeFrameCommitsIff` | shared/protocol/frame_assembler.cpp:165-275 | a frame sent whole and undamaged is committed exactly if its counts fit FRAME_END and, when PARTIAL, a base exists |
| `Races.RectsHeard` | shared/protocol/frame_assembler.cpp:190-202 | a run of fitting rectangles is collected completely, or the frame is discarded, depending only on the two totals |
| `Progress.PumpComesToRest` | shared/display/remote_display.cpp:250-456 | from any state whatever, pump answers false after at most queued + 1 calls |
| `Progress.RestIsStable` | shared/display/remote_display.cpp:282-290 | pump answers false exactly at rest, and changes nothing then |
| `Progress.RestStays` | shared/display/remote_display.cpp:288-290 | at rest any number of further pumps changes nothing |
| `Progress.FlushedFrameSticksIff` | shared/display/remote_display.cpp:346-366 | from any state and for any number of queued slots, a flushed frame left to pump gets stuck exactly if nothing is open on the wire and its FRAME_BEGIN is not to come or not taken |
| `Progress.StuckStays` | shared/display/remote_display.cpp:144-147 | no pump, flush or writeRect leaves the stuck state, and writeRect never succeeds in it |
| `Progress.DropRecovers` | shared/display/remote_display.cpp:233-248 | from any state with a slot at all, dropPendingFrame and queued + 1 pumps leave nothing in flight, and then the next valid writeRect opens a FULL frame |
| `Fidelity.ActExact` | shared/display/remote_display.cpp:113-456 | every calm action at every point keeps the fidelity invariant, for every sink |
| `Continuity.ActSound` | shared/display/remote_display.cpp:192-312 | every calm and quiet action at every point keeps the invariant that ties needFull_ and the frame in the making to the receiver's base |
| `Accounting.ActBooks` | shared/display/remote_display.cpp:354-378 | every calm action at every point keeps the log, the wire counters and the statistics in agreement |
| `SplitPump.ActKeeps` | shared/display/remote_display.cpp:113-456 | every tame action at every point keeps the structural invariant |
| `RemoteDisplays.RemoteDisplay.constructor` | shared/display/remote_display.cpp:76-111 | the new object is the blank sender after init |
| `RemoteDisplays.RemoteDisplay.Init` | shared/display/remote_display.cpp:81-111 | refuses bad geometry or format unchanged, otherwise forgets everything in flight |
| `RemoteDisplays.RemoteDisplay.WriteRect` | shared/display/remote_display.cpp:113-179 | status and new state are those of the specification, and no slot already in use is written, pixels included |
| `RemoteDisplays.RemoteDisplay.Stage` | shared/display/remote_display.cpp:159-178 | the ring slot behind the last one holds the rectangle and its pixels, the abstract queue grows by it |
| `RemoteDisplays.RemoteDisplay.Flush` | shared/display/remote_display.cpp:181-190 | marks the open frame for its end, else does nothing |
| `RemoteDisplays.RemoteDisplay.SetEnabled` | shared/display/remote_display.cpp:192-208 | disabling forgets the frame in flight and counts it only if it was on the wire |
| `RemoteDisplays.RemoteDisplay.OnConnected` | shared/display/remote_display.cpp:210-214 | the next frame is FULL |
| `RemoteDisplays.RemoteDisplay.OnDisconnected` | shared/display/remote_display.cpp:216-231 | forgets the frame in flight, once |
| `RemoteDisplays.RemoteDisplay.DropPendingFrame` | shared/display/remote_display.cpp:233-248 | marks the frame in flight as aborted, or just asks for FULL |
| `RemoteDisplays.RemoteDisplay.Pump` | shared/display/remote_display.cpp:250-456 | new state, log and answer are those of the specification, for every sink |
| `RemoteDisplays.RemoteDisplay.PopFront` | shared/display/remote_display.cpp:515-522 | the abstract queue loses its oldest slot, the others stay where they are |
| `RemoteDisplays.RemoteDisplay.StreamHead` | shared/display/remote_display.cpp:367-373 | what is streamed is the rectangle at the head of the queue, pixels read from its own slot |
| `RectSources.RectSource.Read` | shared/display/remote_display.cpp:37-48 | fills as much as is asked for and left, with the next bytes of header and pixels, and touches nothing before them |
| `RectSources.ReadsConcat` | shared/display/remote_display.cpp:31-66 | reads of any sizes concatenate to the payload, in order, and then nothing |
| `Wire.RectFields` | shared/protocol/frame_assembler.cpp:176-188 | the receiver's decoding of a FRAME_RECT payload returns the rectangle that was put in |
| `Wire.EndFields` | shared/protocol/frame_assembler.cpp:221-235 | ... and of a FRAME_END payload the id, the counts and the abort flag |
| `Wire.BeginBytes` | shared/protocol/message.cpp:547-562 | the twelve bytes of a FRAME_BEGIN, little-endian, and its type |
| `Wire.RectBytes` | shared/display/remote_display.cpp:31-66 | the eight bytes before the pixels of a FRAME_RECT, and its type |
| `Wire.EndBytes` | shared/protocol/message.cpp:586-600 | the nine bytes of a FRAME_END, and its type |
| `FrameStreams.CommitIff` | shared/protocol/frame_assembler.cpp:71-275 | on any stream, an input makes the assembler commit exactly if it is an end that agrees, byte by byte, with a valid beginning behind which only fitting rectangles and messages of other kinds have come, no more than the counts can hold, and, if PARTIAL, a frame has been committed since the last restart; what is committed is that beginning with those rectangles |
| `FrameStreams.OpenCollects` | shared/protocol/frame_assembler.cpp:116-207 | while a frame is open all its rectangles have been collected, in order |
| `FrameAssembly.DeliverEnd` | shared/protocol/frame_assembler.cpp:209-275 | a FRAME_END commits exactly if it is not aborted, names the frame, has the counts collected and, for PARTIAL, finds a base |
| `FrameReceivers.FrameReceiver.HandleBegin` | shared/protocol/frame_assembler.cpp:116-163 | a valid beginning supersedes an open frame, an invalid one discards it |
| `FrameReceivers.FrameReceiver.HandleRect` | shared/protocol/frame_assembler.cpp:165-207 | collects a rectangle that fits, discards the frame for one that does not |
| `FrameReceivers.FrameReceiver.HandleEnd` | shared/protocol/frame_assembler.cpp:209-275 | commits or discards as specified, the collected rectangles becoming the committed frame |
| `FrameReceivers.FrameReceiver.Commit` | pc/src/serial_worker.cpp:354-369 | hands on exactly the rectangles collected since the beginning and starts afresh with a base |
| `Screens.VirtualScreen.SetFrame` | pc/src/virtual_screen_widget.cpp:50-79 | FULL starts over from black, PARTIAL paints on an image of the same size, anything else changes nothing |
| `Screens.VirtualScreen.BlitRect` | pc/src/virtual_screen_widget.cpp:100-128 | a pixel covered by a valid rectangle gets its colour, every other pixel keeps its own |
| `Screens.VirtualScreen.ClearDisplay` | pc/src/virtual_screen_widget.cpp:81-87 | no image |
| `Screens.ImageIsReplay` | pc/src/virtual_screen_widget.cpp:50-87 | after any run of setFrame and clearDisplay the image is a replay of what was accepted since the last FULL frame |
| `Screens.NoImageWithoutFull` | pc/src/virtual_screen_widget.cpp:56-66 | there is no image until a FULL frame has been accepted |
| `Screens.ColourIsLast` | pc/src/virtual_screen_widget.cpp:115-126 | a replayed pixel has the colour of the last valid rectangle covering it |
| `Screens.ColourIsBlack` | pc/src/virtual_screen_widget.cpp:57-58 | ... or is black if none does |
| `Screens.PixelBytes` | pc/src/virtual_screen_widget.cpp:115-125 | pixel i of a rectangle, counted row by row from the left, has the colour of its bytes 2i and 2i + 1, the low one first |
| `Screens.FrameTakenIff` | pc/src/virtual_screen_widget.cpp:50-79 | a frame changes the screen exactly if it has the known format, sides of 1 to 4096 and is FULL or a PARTIAL one on an image of its size |
| `Screens.ExpandRepeatsTopBits` | pc/src/virtual_screen_widget.cpp:24-31 | the low bits of each channel repeat its top bits |
| `Screens.ExpandIsExact` | pc/src/virtual_screen_widget.cpp:24-31 | the conversion from RGB565 to RGB888 loses nothing |
| `Crc.TableForm` | shared/protocol/crc32.cpp:28-34 | the table-driven update is eight steps of division |
| `Crc.BuildTable` | shared/protocol/crc32.cpp:11-24 | the table holds the remainders the update needs |
| `Crc.ComputeCrc32` | shared/protocol/crc32.cpp:28-38 | the loop computes the CRC-32 of section 8 of RFC 1952 |
| `CrcChecks.ResidueIff` | shared/protocol/crc32.cpp:28-38 | running data and four more bytes through the register leaves 0xDEBB20E3 there exactly if these bytes are the CRC of the data, low byte first |
| `CrcChecks.CheckValue` | shared/protocol/crc32.cpp:36-38 | the CRC of "123456789" is 0xCBF43926, that of nothing is 0 |
| `Crc.OneByteDetected` | README.md:67-68 | data that differ in one byte have different CRCs |
| `Crc.FourBytesDetected` | README.md:67-68 | data that differ within four adjacent bytes have different CRCs |
| `Packets.Stream.Feed` | scripts/espview_e_ab_harness.py:239-240 | appends to the buffer and nothing else |
| `Packets.Stream.NextPacket` | scripts/espview_e_ab_harness.py:242-268 | result, buffer and counters are those of the one-look-at-a-time specification |
| `Packets.SplittingIsInvisible` | scripts/espview_e_ab_harness.py:239-268 | packets, error counts and leftover bytes do not depend on how the stream is cut |
| `Packets.DrainRests` | scripts/espview_e_ab_harness.py:242-258 | what is left after draining waits for more bytes |
| `Packets.BytesAreConserved` | scripts/espview_e_ab_harness.py:242-268 | on any input, bytes fed are bytes of packets, one for every counted error, and bytes still buffered |
| `Packets.BuiltIsRead` | scripts/espview_e_ab_harness.py:146-152 | a built packet is read back, whatever follows, exactly if its type and length are ones the parser accepts |
| `Packets.StreamRoundTrip` | scripts/espview_e_ab_harness.py:146-268 | any sequence of valid packets, concatenated and cut anyhow, is parsed back with no error and nothing left over |
| `Packets.OneDamagedByte` | scripts/espview_e_ab_harness.py:252-264 | what one changed byte outside the length field means: bad magic, bad header or bad CRC by its place and value, and nothing at all for the two bytes nothing covers |
| `Packets.BuildBytes` | scripts/espview_e_ab_harness.py:146-152 | the twenty bytes of a header, with the CRC of the first fourteen and the payload |
| `Packets.GarbageIsSkipped` | scripts/espview_e_ab_harness.py:242-249 | bytes that cannot begin a packet cost one bad magic each, and every packet behind them is read |
| `Packets.DamageIsCounted` | scripts/espview_e_ab_harness.py:246-264 | a damaged byte is counted as a magic, header or CRC error by what it damages, and parsing goes on one byte further |
| `Packets.FourDamagedBytes` | scripts/espview_e_ab_harness.py:259-264 | any damage within four adjacent payload bytes is a CRC error |
| `Messages.CuttingIsInvisible` | shared/protocol/decoder.cpp:57-63 | decoded messages, errors and leftover state do not depend on how the stream is cut |
| `Messages.MessagesRoundTrip` | shared/protocol/decoder.cpp:201-336 | encoded messages, chunked or not, come back in order with no error and nothing left over, however cut |
| `Messages.DamageIsOneError` | shared/protocol/decoder.cpp:280-294 | one damaged payload byte costs one error and the message in assembly; decoding goes on behind the packet |
| `MessageEncoders.EncodableIff` | shared/protocol/encoder.cpp:20-34 | what is not refused: known types up to 1 MiB, asking for an acknowledgement only where that is allowed and in one packet |
| `MessageEncoders.MessageEncoder.EncodeStream` | shared/protocol/encoder.cpp:18-77 | refuses as listed before sending, else hands over a prefix of the specified packets, all of them exactly on success |
| `MessageEncoders.MessageEncoder.EncodeStreaming` | shared/protocol/encoder.cpp:79-187 | the same packets pulled from a source that gives pieces of any size |
| `StreamDecoders.StreamDecoder.FindMagic` | shared/protocol/decoder.cpp:204-241 | the skipping search stops exactly where trying every offset in turn would |
| `StreamDecoders.StreamDecoder.Feed` | shared/protocol/decoder.cpp:57-63 | events and state after feeding are those of decoding everything still owed |
| `StreamDecoders.StreamDecoder.Process` | shared/protocol/decoder.cpp:201-336 | the four-state machine yields the specified events and comes to rest with nothing owed |
| `StreamDecoders.StreamDecoder.HandleVerifiedPacket` | shared/protocol/decoder.cpp:134-199 | assembles, completes or abandons the chunked message as specified |
| `StreamDecoders.GarbageRun` | shared/protocol/decoder.cpp:231-234 | a jump passes over nothing that could begin a packet |
| `SequenceGaps.GapIff` | shared/protocol/decoder.cpp:300-323 | over any intact packets a gap is reported exactly if one that is not HELLO does not carry the number after the one before it |
| `SequenceGaps.LostBlock` | shared/protocol/decoder.cpp:315-323 | with a block missing from consecutive packets, exactly one gap is reported, there, unless the block is a multiple of 2^16 long; what is decoded before depends on the packets before it only, what is decoded after on those after it only |
| `SequenceGaps.LostBytes` | shared/protocol/decoder.cpp:201-336 | the same on the bytes, cut anyhow |
| `SequenceGaps.SplitIs` | shared/protocol/encoder.cpp:36-77 | a message goes out in as few packets as hold it, numbered on, all but the last full and marked, packet i with bytes 4096i onwards |
| `SequenceGaps.DecodedIsBounded` | shared/protocol/decoder.cpp:119-182 | nothing longer than the limit is put together, whatever packets come, damaged or not |
| `SequenceGaps.ComesThroughIff` | shared/protocol/decoder.cpp:119-182 | a message of several packets comes through exactly if it is within the limit |
| `BrokenMessages.BadHeaderIsNamed` | shared/protocol/decoder.cpp:247-270 | another version or an unknown type is reported as that, and the search goes on behind the first byte |
| `BrokenMessages.TooLongIsNamed` | shared/protocol/decoder.cpp:247-270 | ... and so is a length above that of a packet |
| `BrokenMessages.CutShort` | shared/protocol/decoder.cpp:134-199 | the first packets of a message leave it in assembly, without an event of its own |
| `BrokenMessages.DamagedTaken` | shared/protocol/decoder.cpp:280-294 | a message with one damaged packet costs a CRC error, and whatever its later packets pass for comes after it |
| `BrokenMessages.SplicedIff` | shared/protocol/decoder.cpp:155-199 | behind a message cut short the next one is joined to it without an error exactly if it has the same type and flags |
| `OverTheWire.HeardOverTheWire` | shared/protocol/decoder.cpp:57-336 | over any number of sessions, with packets damaged and messages cut short, decoding and assembling the bytes, cut anyhow, gives the receiver read off the log |
| `NumberParsers.ParseU64Clamp` | shared/display/physical_status.cpp:39-57 | digits of any length give the number or 2^64-1, anything else is refused |
| `NumberParsers.ParseI64Clamp` | shared/display/physical_status.cpp:60-84 | signed digits of any length give the number cut off at both ends of 64 bits |
| `NumberParsers.ParseHexClamp` | shared/display/physical_status.cpp:87-114 | hex digits, prefixed or not, give the number or 2^64-1 |
| `NumberParsers.ParseFpsHundredths` | shared/display/physical_status.cpp:139-169 | whole part and up to two decimals in hundredths, cut off at 2^32-1; the third decimal is looked at, the rest is not |
| `NumberParsers.U64Forms` | shared/display/physical_status.cpp:39-57 | every number printed in decimal is read, saturating; anything with another character, or nothing, is refused |
| `NumberParsers.I64Forms` | shared/display/physical_status.cpp:60-84 | ... with one sign of either kind, saturating at both ends |
| `NumberParsers.HexForms` | shared/display/physical_status.cpp:87-114 | digits of either case, with either prefix or none |
| `NumberParsers.FpsForms` | shared/display/physical_status.cpp:139-169 | no decimals, one, two, or more of which the third must be a digit |
| `NumberParsers.Saturates` | shared/display/physical_status.cpp:49-53 | the overflow test by division is exact |
| `NumberParsers.FpsIsRead` | shared/display/physical_status.cpp:139-169 | inverts the printed form of every 32-bit value, and is cut off exactly above |
| `Telemetry.NextKeyValue` | shared/display/physical_status.cpp:177-189 | a word without '=' leaves the previous pair in place |
| `Telemetry.ParseFields` | shared/display/physical_status.cpp:204-373 | the loop over pairs, stale ones repeated, is a fold over the real pairs |
| `Telemetry.ParsePhysicalStatusLine` | shared/display/physical_status.cpp:391-419 | the group named by the first word is updated by the pairs of the line, the other groups are left alone |
| `TelemetryFields.LatestIs` | shared/display/physical_status.cpp:204-373 | what the field rules below call the latest value is that of the last pair with the key that can be read |
| `TelemetryFields.OledFields` | shared/display/physical_status.cpp:204-227 | after any pairs each field is the latest value of its key, cut off at its range, or what it was before: address, controller, error count and flag |
| `TelemetryFields.TransportFields` | shared/display/physical_status.cpp:230-246 | ... signal strength at both ends of 8 bits, and channel |
| `TelemetryFields.MemoryFields` | shared/display/physical_status.cpp:250-268 | ... three heap figures |
| `TelemetryFields.DisplayFrameFields` | shared/display/physical_status.cpp:271-310 | ... frame number, type and counts |
| `TelemetryFields.DisplayRateFields` | shared/display/physical_status.cpp:271-310 | ... times, rate and losses |
| `TelemetryFields.SessionFields` | shared/display/physical_status.cpp:313-346 | ... the state and both flags, the first number of a pair counting even if its second cannot be read |
| `TelemetryFields.ModeFields` | shared/display/physical_status.cpp:350-373 | ... mode, router and scene, with 0xFF for what is out of range |
| `TelemetryFields.OneGroupChanges` | shared/display/physical_status.cpp:391-419 | a line changes and validates the group of its first word, and no other; an unknown word changes nothing |
| `Telemetry.DifferentKindsCommute` | shared/display/physical_status.cpp:391-419 | lines of different kinds commute |
| `TelemetryPrinters.BareWordsDoNothing` | shared/display/physical_status.cpp:177-189 | a word without '=' anywhere behind the first word of a line has no effect |
| `TelemetryPrinters.BlanksSeparate` | shared/display/physical_status.cpp:27-36 | spaces, tabs, returns and newlines end a word and are skipped before one |
| `TelemetryPrinters.FirstEqualsSplits` | shared/display/physical_status.cpp:177-189 | the first '=' ends the key, the value may hold others |
| `TelemetryPrinters.OledRoundTrip` | esp32/main/main.cpp:1135-1143 | the printed line recovers address, controller, clamped error count and flag, and nothing else changes |
| `TelemetryPrinters.MemRoundTrip` | esp32/main/main.cpp:1116-1121 | ... the three heap figures after their clamps |
| `TelemetryPrinters.TrxRoundTrip` | esp32/main/main.cpp:1082-1101 | ... signal strength and channel |
| `TelemetryPrinters.SessRoundTrip` | esp32/main/main.cpp:726-731 | ... the state and the two liveness flags, in spite of the clamped counters |
| `TelemetryPrinters.ModRoundTrip` | esp32/main/main.cpp:1008-1016 | ... mode, router state and scene, with -1 coming back as unknown |
| `TelemetryPrinters.OledAndMemFit` | esp32/main/main.cpp:1135-1143 | these lines have at most 64 characters for all values |
| `TelemetryPrinters.TrxFits` | esp32/main/main.cpp:1092-1101 | at most 64 characters for all values, which the longest line reaches |
| `TelemetryPrinters.SessAndModFit` | esp32/main/main.cpp:700-731 | fewer than 64 characters, as their 64-byte buffers need |
| `DisplayLines.DispSurvivesIff` | esp32/components/lvgl_port/src/lvgl_port.cpp:383-393 | the disp line is recovered, whatever was known before, exactly if it fits its buffer |
| `Handoffs.Handoff.TickTcpHandoff` | esp32/main/main.cpp:883-958 | new globals and commands given are those of the specified tick |
| `Handoffs.Handoff.BeginTcpHandoff` | esp32/main/main.cpp:839-868 | latches without a target, else announces and switches, undoing it if the switch fails |
| `Handoffs.SwitchesAlternate` | esp32/main/main.cpp:839-958 | over any run of ticks, switches to TCP and back alternate strictly |
| `Handoffs.RetryNeedsUnlock` | esp32/main/main.cpp:892-907 | between a fallback and the next attempt lies a status below GOT_IP or CLEARED |
| `Handoffs.AbandonedIff` | esp32/main/main.cpp:910-956 | a tick falls back to UART exactly if its own switch failed, or a first connection has not come up for 15 s since the last attempt, or the link has been down at every tick for 30 s since it was last up |
| `Handoffs.AttemptIff` | esp32/main/main.cpp:838-907 | a tick tries TCP exactly if none is under way, the status is GOT_IP, the transport is not TCP, there is a server, and no fallback or missing server has locked it out since the last unlocking status; it announces the attempt, goes to that server, and leads on exactly if the switch succeeds |
| `Handoffs.AnnouncesIff` | esp32/main/main.cpp:890-956 | exactly when the phases 6 and 7 and an unreachable server are announced |
| `Previews.PhysicalPreviewState.AcceptFrameId` | pc/src/physical_preview_state.cpp:55-63 | accepts the first number of a session, then only a positive 16-bit difference |
| `Previews.PhysicalPreviewState.SetFrame` | pc/src/physical_preview_state.cpp:65-86 | stores a well-formed, accepted frame whole, refuses any other without a trace |
| `Previews.PhysicalPreviewState.OnDisconnected` | pc/src/physical_preview_state.cpp:44-53 | forgets everything |
| `Previews.PhysicalPreviewState.IsStale` | pc/src/physical_preview_state.cpp:92-97 | exactly when available and older than the threshold |
| `Previews.ShownIff` | pc/src/physical_preview_state.cpp:65-86 | accepted exactly with a size, a bit for every pixel and a newer number |
| `Previews.StaleAfterThreshold` | pc/src/physical_preview_state.cpp:92-97 | a shown frame is stale exactly when more than the threshold has passed, nothing shown never is |
| `Previews.AcceptedIffNewer` | pc/src/physical_preview_state.cpp:55-86 | for numbers that are a counter modulo 2^16, within the window, a well-formed frame is accepted exactly if its counter is larger |
| `Previews.PreviewOnlyMovesForward` | pc/src/physical_preview_state.cpp:65-86 | over any number of wraps accepted counters strictly increase, and no well-formed frame delivered has a larger one than the last accepted |
| `Previews.ShowsNewest` | pc/src/physical_preview_state.cpp:65-86 | what is shown is the last frame accepted |
| `Previews.HalfRangeAheadIsRejected` | pc/src/physical_preview_state.cpp:59-62 | the window cannot be wider |
| `Ipv4.IsIpv4DottedDecimal` | pc/src/wifi_wizard_state.cpp:20-54 | accepts exactly four groups of one to three digits, each at most 255 |
| `Ipv4.QuadIff` | pc/src/wifi_wizard_dialog.cpp:59-70 | which texts with three dots are addresses, digit by digit, and that the first group is the highest byte |
| `Ipv4.DotsCounted` | pc/src/wifi_wizard_state.cpp:20-54 | texts with any other number of dots are none |
| `Ipv4.FirstOctetIsHighest` | esp32/main/main.cpp:850-854 | four octets, printed and converted, make the number with the first as its highest byte, and that number prints as they do |
| `Ipv4.PrintedAddressIsRead` | esp32/main/main.cpp:850-854 | every printed 32-bit address is valid text and converts back to itself |
| `Ipv4.TextSurvivesIff` | pc/src/wifi_wizard_dialog.cpp:59-70 | valid text, converted and printed again, is the same text exactly if no group has a leading zero |

## Left out

- Sockets, COM ports, FreeRTOS tasks, Qt painting, settings and PNG files: I/O and UI. The clock, the transport and
  session states and the success of `switchTo` are inputs of a tick.
- Runs.PartialsPatchTheirPredecessor: does not cover sinks that answer kOk for a message that never arrives whole
  (`Honest`); no sender-side rule could, since nothing is acknowledged. What is committed then is covered by
  Runs.CommitsAreUiFrames.
- Delivery.FlushedFrameArrives: does not cover runs in which an abort was cleared with its frame's first slot queued.
- OverTheWire.HeardOverTheWire: messages are damaged in one payload byte of one packet and cut short between packets,
  not within one; and none follows a message of its own type that was cut short, which the decoder would join to it.
- Packets.OneDamagedByte: does not cover the length field, where a changed byte moves the end of the packet and with it
  the bytes the CRC is computed over.
- RemoteDisplays.RemoteDisplay.Pump: elapsed milliseconds, the slot-freed callback and the queries `hasFreeSlot`,
  `frameInFlight`, `nextFrameType` and the snapshots are not modelled; rectCount_ and the statistics do not wrap.
- RemoteDisplays.RemoteDisplay.WriteRect: x + w is a mathematical sum; machine overflow is not modelled.
- FrameReceivers.FrameReceiver.HandleEnd: the reason of a discard and the callbacks for it are not modelled, only that
  the frame is discarded.
- EndToEnd.ScreenShowsTheUi: the gating of displayed frames by mode and session in pc/src/main.cpp is not modelled.
- Session calls inside a `pump` send, for which the code offers no protection.
- The one-slot pending ACK of main.cpp, acknowledgements, heartbeats and the retries of the endpoint.
- `DisplayUiState`, `DisplayRouter`, the wizard's steps, capability snapshots, profile and translation tables, and the
  payload parsers of the test harness: easy members.
- The assembler inside scripts/pc_com3_lvgl_sanity.py: the receiver modelled is the one the PC application uses.
