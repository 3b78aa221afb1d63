# Wireless toolkit: proofs about the Bluetooth text channel and the Wi-Fi scan

The firmware talks to a web console in text. Commands come in over Bluetooth in fragments, are split
in place into words and executed; responses and payloads go out through a queue of eight notifications,
as one notification when they fit the client's MTU and as a stream of numbered `~S`/`~C`/`~E` frames when
they do not; the console puts the streams together again. The same firmware keeps a table of the ten
strongest Wi-Fi networks while scan results come in, and powers Wi-Fi up and down around scans.

This project models those parts and proves what they are for: that a payload arrives exactly or not at
all whatever the radio loses, that splitting undoes quoting, that the streaming table agrees with the
answer computed from the whole scan, and what every interleaving of threads, callbacks and delayed work
keeps. Where the code falls short of the obvious law, the exact condition is proved: the law holds in all runs
if and only if the condition does, and the run that breaks it otherwise is given.

Characters stand for bytes. Objects the firmware or the console update in place are classes over arrays
and fields (`OutQueue.Outq`, `Stream.StreamCtx`, `Response.Sender`, `CommandWrite.Buffers`,
`Console.Receiver`, `ScanTable.Table`, the splitter over `array<char>`); each of their methods is proved against a function or
relation on values, and the laws are lemmas about those. What happens across threads is a state machine
whose steps are the locked regions (`QueueMachine`, `ScanPower`). `bt_gatt_notify` is an arbitrary function
from the number of the call to its answer.

| file | contents |
|---|---|
| `Text`, `Errno` | C strings, three-digit numbers, lists of pieces, subsequences; error numbers |
| `Frames` | the frames of a stream as the firmware prints and the console reads them; cutting writes |
| `Console` | the console's reassembler; streams are independent |
| `Transfer` | loss, reordering and the limit of the three-digit counter |
| `StaleEntries`, `LongStreams` | leftover entries and frames in any order; exactly how long a stream may be |
| `Successive` | streams that follow one another under one id |
| `OutQueue` | the link, the retry loop, and the ring of eight with push, pop, requeue, flush, clear |
| `Stream`, `Response` | stream context; responses and payloads, direct or streamed |
| `ResponseIds` | request ids in front of responses, and how the console takes them off |
| `QueueMachine` | the queue under any number of producers and flushers and connection callbacks |
| `PushTries`, `Attended` | how a push ends among other threads; queued frames that nobody will send |
| `EndToEnd` | framing, queue, radio and reassembly together; independence of the MTU |
| `Notify` | chunked notification without the queue |
| `Args`, `SplitInPlace`, `Payload` | tokenizer and printer; the in-place splitter; the bounded joiner |
| `Quoting` | how command lines are written, and that the tokenizer reads them so |
| `CommandWrite`, `CommandRuns` | command fragments; writes and handler steps interleaved |
| `RawLine`, `RawSplit` | the words one sees on a raw line; those the splitter finds there |
| `Transmit`, `NoMessage` | the transmit commands from line to queue; those without a message of their own |
| `ScanTable`, `ScanOffline` | the streaming top-ten table; its agreement with the offline answer |
| `ScanPower`, `ScanOwner` | scan start, retries, events, delayed auto-off and Wi-Fi power interleaved; Wi-Fi that is on for nobody |
| `ScanAttempts`, `ScanGuards` | how often a scan start asks and what a whole scan leaves behind; what protects a scan |
| `JsonEscape` | escaping network names into a bounded buffer |

## Model

| member | source | states |
|---|---|---|
| Transfer.ExactlyOrNothing | BLE_Webapp/index.html:865-917 | Of a stream of at most 999 NUL-free pieces, under any loss and any mixture with other traffic, the console adds to the texts of that id exactly the payload or nothing, and adds it exactly when the end and every chunk came through, provided it has no entry for the id or sees the start |
| StaleEntries.StaleEntryExactly | BLE_Webapp/index.html:865-917 | Exactly when a leftover entry is harmless: whatever a stream of at most 999 pieces loses, the console adds its payload or nothing, if and only if everything visible in the entry is a piece of that same stream in its place |
| StaleEntries.AfterLostEnd | BLE_Webapp/index.html:865-917 | From frames on the air: after a stream that lost its end, the next one of the same id is safe under every loss if and only if the pieces of the first begin the second |
| StaleEntries.StaleEntrySplices | BLE_Webapp/index.html:874-887 | Two streams, one without its end and one without its start, from which a console that began empty delivers a text that is neither |
| StaleEntries.OnlyCopies | BLE_Webapp/index.html:874-914 | Frames of one stream, reordered, lost and repeated at will, add only copies of the payload to an absent or harmless entry's texts, at most one for each end frame |
| StaleEntries.SafeInAnyOrder | BLE_Webapp/index.html:865-917 | With one end frame at most: the payload once or nothing, in any order and mixture, and nothing without the end |
| Transfer.AnyOrder | BLE_Webapp/index.html:865-917 | With at most 1000 pieces any permutation of the chunk frames between start and end, mixed with other traffic, is rebuilt to the payload |
| Transfer.ThousandPieces | src/wt_stream.c:86-106 | Without loss a stream of non-empty pieces is rebuilt exactly if it has at most 1000 pieces: the printed number is the counter modulo 1000 |
| Transfer.BlindAtThousand | src/wt_stream.c:153-154 | Of exactly 1000 pieces the end frame announces none: a text is delivered whatever is missing, and it is the payload exactly if nothing is |
| LongStreams.SafeExactly | BLE_Webapp/index.html:865-917 | Whatever a stream of non-empty pieces loses on the way, the console adds its payload or nothing, if and only if the stream has at most 999 pieces and what the console holds of its id is harmless |
| LongStreams.BoundExactly | src/wt_stream.c:86-154 | For a console without an entry of the id: if and only if the stream has at most 999 pieces |
| LongStreams.NumbersFill | src/wt_stream.c:86-106 | From 1000 pieces on every printed number has been used, so nothing is ever found missing |
| LongStreams.EndLeavesNothing | BLE_Webapp/index.html:889-911 | Once an end frame of an id has been read the console holds nothing of that id, whether the stream was complete or not |
| LongStreams.SafeAfterEnd | BLE_Webapp/index.html:865-917 | So the next stream of that id adds its payload or nothing under every loss, its start included |
| Successive.SuccessiveStreams | BLE_Webapp/index.html:865-917 | Any number of streams of one id, mixed with other traffic and whatever is lost of them but their starts: the console adds the payloads of exactly those that came through, in order |
| Transfer.Reassemble | BLE_Webapp/index.html:874-914 | The law behind these: one text is delivered if and only if the end arrives and no announced chunk is missing; it is the payload if all pieces arrived and shorter if a non-empty one did not |
| Transfer.OwnStream | src/wt_stream.c:41-163 | What the console reads in the frames a sender prints for an id is the start, the numbered pieces in order and the end, all under that id |
| Console.StreamsAreIndependent | BLE_Webapp/index.html:865-917 | Whatever frames of other streams and messages come in between, an id's entry and deliveries are those of its own frames received alone |
| Console.Receiver.HandleStreamFrame | BLE_Webapp/index.html:865-917 | The method on the map of sparse arrays does what the value-level receiver does, and reports that the text was a frame exactly if, without trailing NULs, it is one that a sender can print |
| Console.Receiver.LogResponseText | BLE_Webapp/index.html:962-968 | A frame goes to the reassembler; anything else, and so every text that does not begin with '~', is logged without its trailing white space |
| Console.Receiver.Missing | BLE_Webapp/index.html:897-902 | Lists exactly the announced indices without a chunk; empty if and only if the stream is complete |
| Frames.ReadStart | src/wt_stream.c:60 | The printed start frame is read as the start of that id |
| Frames.ReadChunk | src/wt_stream.c:86-98 | A printed chunk frame is read as its id, number and payload without trailing NULs |
| Frames.ReadEnd | src/wt_stream.c:153-154 | The printed end frame is read as the end with that count |
| Frames.FramesExactly | BLE_Webapp/index.html:868-890 | Over all texts: a start is "~S" and a number of three digits, a chunk "~C", two such numbers and anything, an end "~E" and two such numbers, and nothing else is a frame; every frame begins with '~' |
| Frames.ChunkIsChunk | BLE_Webapp/index.html:874 | A chunk frame is read as the id, number and payload it was printed with |
| Frames.CutFull | src/wt_stream.c:80-95 | Every piece of a write but the last is as long as the frame allows, so there are as few as can be |
| Frames.CutAllFacts | src/wt_stream.c:71-114 | However a text is divided into writes, its pieces are non-empty, fit the frame and concatenate to the text |
| Text.Pad3 | src/wt_stream.c:60 | Three digits whose value is the number |
| Text.Pad3Digits | src/wt_stream.c:60 | Hundreds, tens and units in this order, each as its digit |
| Text.StripTrailingNuls | BLE_Webapp/index.html:824-826 | The longest prefix that does not end in NUL |
| Text.TrimEnd | BLE_Webapp/index.html:828-830 | The longest prefix that does not end in white space |
| OutQueue.Link.PayloadMax | src/wt_ble.c:300-313 | Between 1 and 244 whatever the MTU; the largest payload that fits the MTU behind a three-byte header, and 20 without a usable MTU |
| OutQueue.TryNotify | src/wt_ble.c:315-339 | Stops at the first answer that is not transient, after at most nine calls |
| OutQueue.AllBusy | src/wt_ble.c:320-334 | The retries end in a transient error exactly if every one of the calls met one |
| OutQueue.Link.NotifyOneChunk | src/wt_ble.c:315-339 | The retry loop gives the answer and uses the calls that TryNotify says |
| OutQueue.DrainExactly | src/wt_ble.c:508-528 | A flush works through the queue up to the first frame whose nine calls meet transient errors; exactly those before it with a permanent error are missing from what it sends, and the rest stays queued |
| OutQueue.NoneGivenUp | src/wt_ble.c:508-528 | Without permanent errors what is sent and what stays make up the queue; a stack that takes everything gets the whole queue |
| OutQueue.DrainFacts | src/wt_ble.c:508-528 | What a flush leaves is the tail end of the queue, what it sends an ordered part of the rest, and it leaves something exactly if it schedules another try |
| OutQueue.OfferFacts | src/wt_ble.c:403-456 | The exact answer to a push and what becomes of the frame: a closed gate's error, EMSGSIZE, ENOSPC if and only if the ring is full and the next nine notify calls are transient, else it is the last frame queued and the handler is scheduled; with room no call is made; without permanent errors nothing is lost |
| OutQueue.OfferAllExactly | src/wt_ble.c:403-456 | Of frames pushed one after the other exactly those before the first refused one are taken, and its answer is the last |
| OutQueue.AnswerExactly | src/wt_ble.c:403-456 | Frames that fit are all taken behind an open gate unless at one of them the ring is full and the next nine notify calls are transient |
| OutQueue.RoomForAll | src/wt_ble.c:429-447 | Frames that find room wait behind the others, whatever the stack does |
| OutQueue.OffersKeepLine | src/wt_ble.c:403-456 | Pushes keep what is queued the tail end of what was accepted, and what was sent an ordered part of what came before |
| OutQueue.NoSpaceExactly | src/wt_ble.c:428-455 | Push finds no room if and only if the ring was full and nine notify calls in a row were transient; a frame it takes is the last in the queue |
| OutQueue.TurnKeeps | src/wt_ble.c:513-527 | Each turn of the flush loop leaves the outcome of the whole flush as it was |
| OutQueue.SlotsBack | src/wt_ble.c:431-440 | Writing at the tail, with wrap-around, appends to the sequence the ring stands for |
| OutQueue.SlotsPop | src/wt_ble.c:464-469 | Advancing the head takes the oldest element off |
| OutQueue.SlotsFront | src/wt_ble.c:484-487 | Moving the head back one slot, with wrap-around, prepends |
| OutQueue.Outq.constructor | src/wt_ble.c:385-396 | An empty, valid ring |
| OutQueue.Outq.Enqueue | src/wt_ble.c:429-442 | Appends exactly if there is room; the tail stays head + count modulo 8 |
| OutQueue.Outq.Pop | src/wt_ble.c:458-473 | Hands out the oldest frame exactly if there is one |
| OutQueue.Outq.RequeueFront | src/wt_ble.c:475-493 | Puts a frame back in front, or counts it as dropped when the ring is full again |
| OutQueue.Outq.Clear | src/wt_ble.c:495-506 | Empties the queue and changes nothing else; what was sent stays an ordered part of what was accepted |
| OutQueue.Outq.SendItem | src/wt_ble.c:514-526 | Logs, gives up or requeues the popped frame by the answer of the stack |
| OutQueue.Outq.Flush | src/wt_ble.c:508-528 | Run alone it terminates, does nothing unless the link is up and the client subscribed, and otherwise ends as the drain of the queue: with a stack that takes everything all that was queued is sent, without permanent errors nothing is lost, and what stays queued has the handler scheduled |
| OutQueue.Outq.Guard | src/wt_ble.c:408-426 | The guards in their order with their errors |
| OutQueue.Outq.Push | src/wt_ble.c:403-456 | Past the guards ENOSPC if and only if the ring was full and the next nine notify calls were transient, and the drop is counted; a frame taken with room waits behind the others; the state is that of the push on values |
| Stream.IdCounter.NextId | src/wt_stream.c:11-23 | Ids run from 1 to 999 and start over |
| Stream.StreamCtx.FrameLimit | src/wt_stream.c:25-39 | Leaves room for the terminator and respects the caller's maximum, and is one of the two |
| Stream.StreamCtx.Begin | src/wt_stream.c:41-69 | Refuses bad ids and too small frames, else pushes the start frame, resets the counter and answers what the push answers |
| Stream.StreamCtx.WriteChunk | src/wt_stream.c:86-106 | The bytes pushed from the reused buffer are the chunk frame of the current number; the counter moves only if they were taken, and the answer is that of the push |
| Stream.StreamCtx.Write | src/wt_stream.c:71-114 | The chunk frames of the cut text are pushed one after the other up to the first that is refused, and the answer is the last one; the 16-bit counter advances by their number; EMSGSIZE for a text that no frame can carry |
| Stream.StreamCtx.WriteRequestIdPrefix | src/wt_stream.c:125-143 | The same for '#', the request id and a blank; nothing for an empty id; EMSGSIZE for one over 29 bytes |
| Stream.StreamCtx.End | src/wt_stream.c:145-163 | Pushes the end frame with the count and answers what the push answers, or EMSGSIZE if it cannot fit |
| Stream.ChunkFramesAppend | src/wt_stream.c:80-111 | The numbering runs on across writes |
| Stream.TwoWrites | src/wt_ble.c:571-594 | Begin, prefix, text and end together are the frames of one stream of the two writes |
| Stream.StreamOffers | src/wt_ble.c:571-594 | So the calls in sequence push the frames of that one stream, each after the one before it was taken |
| Response.SendAll | src/wt_ble.c:571-594 | Begin, prefix, text and end leave the queue and the answer that their pushes in sequence do, for every frame limit |
| Response.StreamedExactly | src/wt_ble.c:571-594 | Over a frame limit above 8 a prefix of the stream's frames is accepted, all if and only if the answer is Ok; behind an open gate the answer is Ok unless at one of the frames the ring is full and the next nine notify calls are transient, and then ENOSPC; frames that find room wait behind the others; without permanent errors nothing is lost |
| Response.TooSmall | src/wt_ble.c:571-594 | Frames that cannot hold a header and a byte make every stream of a text fail |
| Response.Sender.StreamText | src/wt_ble.c:571-594 | A response with its request id goes out as such a stream, under a fresh id |
| Response.Sender.StreamPayload | src/wt_ble.c:619-639 | A transmitted payload likewise, under a fresh id of its own |
| Response.Sender.SendResponse | src/wt_ble.c:641-697 | Nothing and Ok without a subscribed client; else one notification with request id and text if that fits the MTU, and the stream of the same text if not; with frames of more than 8 bytes the answer is Ok if and only if the queue took exactly the frames of the response, and it is Ok if the stack never answers with a transient error; frames that find room wait behind the others |
| Response.RespondedExactly | src/wt_ble.c:641-697 | The exact answer, frame by frame, as for streams |
| Response.Sender.TransmitPayload | src/wt_ble.c:1637-1660 | The guards in their order; one notification if the payload fits the MTU, else its stream; past the guards the answer is Ok if and only if the queue took exactly those frames, and ENOSPC else; Ok with the frames queued behind the others if there is room, and Ok if the stack never answers with a transient error |
| Response.TransmittedExactly | src/wt_ble.c:1637-1660 | The exact answer, frame by frame, as for streams |
| Response.WritesFlatten | src/wt_ble.c:581-586 | The writes of a streamed response concatenate to the text with its request id |
| ResponseIds.TaggedExactly | src/wt_ble.c:661-664 | A response carries '#', its request id and a blank in front exactly if there is one and the response does not begin with '#' |
| ResponseIds.IdComesOff | BLE_Webapp/index.html:849-851 | The console sees the response's own text behind the id if and only if the id is a word, perhaps with white space behind it |
| EndToEnd.PayloadOrNothing | src/wt_ble.c:508-528 | A stream that got into the queue wholly or in part, with other producers' frames anywhere between its own, aired as any ordered part of what the queue took, adds exactly the payload or nothing at the console, decided by what came through, and nothing if it was cut short in the queue |
| EndToEnd.PayloadOrNothingInEveryRun | src/wt_ble.c:403-528 | Over every run of the concurrent queue, with any number of flushers and whatever the radio, other producers and the connection do: the payload once or nothing, nothing if the stream was cut short; if no flusher pops while another holds a frame, what came through decides which |
| Successive.SuccessiveInEveryRun | src/wt_ble.c:403-528 | The same over every run of the queue in which no flusher pops while another holds a frame, if the starts go out |
| Successive.OneMoreStream | src/wt_ble.c:571-594 | Each stream a sender adds, wholly or in part, is covered by them |
| EndToEnd.CarriesAnyway | src/wt_ble.c:250-253 | A message that another producer puts between two frames of a stream does not take it out of these theorems |
| EndToEnd.AddedCarries | src/wt_ble.c:571-594 | What a sender adds to a queue that never saw its id is covered by them |
| EndToEnd.MtuDoesNotShow | src/wt_ble.c:641-697 | For every frame limit above 8 the console logs the same bytes for a response: always when streamed, and when sent directly if and only if the text is none that a sender prints for a frame and does not end in white space |
| EndToEnd.GoodRadioSends | src/wt_ble.c:403-528 | Behind an open gate and with a stack that takes everything a payload is accepted, and after the next flush all that was queued before and then the payload's frames are on the air |
| EndToEnd.GoodRadioDelivers | BLE_Webapp/index.html:865-917 | And the console has the payload, whatever it held before |
| EndToEnd.NoEndWithoutAll | src/wt_stream.c:145-163 | A stream cut short by a refused push never shows its end frame |
| QueueMachine.SentInOrder | src/wt_ble.c:403-528 | Over every run in which no flusher pops while another holds a frame, with any number of producers, what is sent is an order-preserving part of what was accepted, also when a producer fills the ring between a pop and its requeue |
| QueueMachine.OrderExactly | src/wt_ble.c:508-528 | Frames go out in order in all runs if and only if no flusher pops while another holds a frame |
| QueueMachine.TwoAtWork | src/wt_ble.c:428-450 | A run of the code to that point: the work handler holds the first frame of a full ring, a push refills it, the next push meets it full and its inline flush pops the second |
| QueueMachine.TwoInFlightInvert | src/wt_ble.c:513-527 | From every reachable state with two frames in flight two successful sends put frames out in the wrong order |
| QueueMachine.OrderUnlessFull | src/wt_ble.c:428-450 | As long as no push meets the full ring, frames go out in order, whatever else happens |
| QueueMachine.StepsAreRingOperations | src/wt_ble.c:403-506 | On the texts of the queue the machine's steps are the ring's operations, those the methods of the ring are proved against, and no other step touches it |
| QueueMachine.EveryFrameAccountedFor | src/wt_ble.c:403-528 | Over every run with any number of flushers: accepted = sent + given up + dropped at requeue + cleared + in flight + queued, and never more than eight queued |
| PushTries.TwoLooks | src/wt_ble.c:428-455 | In every run a push looks at the ring at most twice; it is through when it finds fewer than eight frames, and then its frame is accepted; otherwise it ends only after its second look and the flush behind it |
| PushTries.StepKeepsManned | src/wt_ble.c:513-527 | Every popped frame is held by a thread that is flushing, and no thread holds two |
| PushTries.PushNeedsSubscription | src/wt_ble.c:1538-1545 | In every run a push is let through only if the client has subscribed since the connection was last torn down |
| PushTries.PopNeedsSubscription | src/wt_ble.c:513 | And a frame is taken for sending only then, and only over a connection |
| PushTries.SendNeedsConnection | src/wt_ble.c:315-339 | In every run a frame goes out only over a connection |
| Attended.TendedExactly | src/wt_ble.c:508-528 | In all runs queued frames have a flush or the scheduled handler to send them, if and only if no flush ends with frames in the queue, which it does only when the link is closed to it |
| Attended.EndsEmptyWhileOpen | src/wt_ble.c:513 | A flush ends with frames in the queue only if the link is down or the client has unsubscribed |
| Attended.Forgotten | src/wt_ble.c:197-201 | Without that: the client unsubscribes before the handler sends, and when it subscribes again the frame is still queued and nothing is scheduled |
| QueueMachine.NothingCrossesConnections | src/wt_ble.c:1534-1545 | If the connection is torn down neither between a pop and its outcome nor inside a push, a queued frame implies a connection, and every frame went out in the connection it was pushed in |
| QueueMachine.CrossingExactly | src/wt_ble.c:1604-1632 | Every frame goes out in the connection it was pushed in, in all runs, if and only if both hypotheses hold |
| QueueMachine.DisconnectBeforeRequeue | src/wt_ble.c:513-520 | Without the first a frame popped in one connection and requeued after it goes out in the next |
| QueueMachine.DisconnectInsidePush | src/wt_ble.c:412-440 | Without the second so does a frame whose push was let through before the disconnection and stored after it |
| Notify.ChunkedFacts | src/wt_ble.c:341-382 | Whatever the radio does the bytes sent are a prefix of the data, all of it if and only if the answer is Ok, in non-empty chunks within the limit that never grow; EMSGSIZE is reported only after a chunk of at most 20 bytes was refused |
| Notify.FullChunks | src/wt_ble.c:359-366 | Every chunk but the last of the data is as large as the limit then in force, the first one or twenty |
| Notify.ChunksAreCut | src/wt_ble.c:359-375 | While none is refused as too large the chunks are those of the data cut at the limit, and data that fits goes out as one |
| Notify.SmallAfterRefusal | src/wt_ble.c:364-370 | Every chunk taken after any EMSGSIZE answer has at most 20 bytes |
| Notify.Characteristic.NotifyChunked | src/wt_ble.c:341-382 | The loop terminates and sends exactly those chunks; ENODEV and ENOTCONN before any call |
| Args.SplitUndoesQuote | BLE_Webapp/index.html:1043-1060 | Splitting the space-joined quoted forms of any list of NUL-free strings, empty ones included, gives back that list, or E2BIG if and only if there are more than the caller has room for |
| Args.ReplacedIsEscape | BLE_Webapp/index.html:1054-1059 | The five replacements one after the other, backslash first, amount to escaping each character once |
| Args.ScanEscaped | src/wt_common.c:94-109 | Inside double quotes the scanner reads an escaped text back and stops at the closing quote |
| Args.SplitPrinted | src/wt_common.c:66-135 | Any forms that read back as their tokens split back when joined with blanks |
| Quoting.LineIsRead | src/wt_common.c:66-135 | Lines of words made of plain, escaped and quoted characters, with any white space around them: the words as they are meant, E2BIG if there are too many, EINVAL if the last one has an open quote |
| Quoting.WordIsRead | src/wt_common.c:91-131 | A word is read with its quotes removed and its escapes resolved: backslash n, r and t as the control characters, any other character behind a backslash as itself, a backslash at the end of the line as itself |
| Quoting.OpenIsFound | src/wt_common.c:127-129 | A word with an open quote is reported as such |
| Quoting.EveryText | src/wt_common.c:91-131 | There are no other texts: each is such a word and what may follow one, or has an open quote |
| SplitInPlace.SplitArgsQuoted | src/wt_common.c:66-135 | The in-place splitter refines the tokenizer of the original line: same count, every token at its argv entry, or the same EINVAL or E2BIG; nothing at or beyond the line's end is touched |
| SplitInPlace.ArgvHoldsTokens | src/wt_common.c:91-131 | Read as C strings the argv entries are the tokens, in bounds, NUL-terminated, and each ends before the next begins |
| SplitInPlace.ScanTokenInPlace | src/wt_common.c:91-131 | Compacting a token over its own text: the write cursor never passes the read cursor, the text before the token and the text still to be read are untouched |
| SplitInPlace.SplitNulFree | src/wt_common.c:66-135 | No token of a C string holds a NUL |
| Payload.BuildPayload | src/wt_common.c:15-45 | The arguments joined with single blanks, NUL-terminated; EMSGSIZE if and only if the joined text and its terminator do not fit, EINVAL if there are no arguments |
| CommandWrite.FragmentsReassemble | src/wt_ble.c:243-282 | Fragments written one behind the other from offset 0 are all accepted if and only if no command is being handled, the whole is under 255 bytes and no second fragment comes at offset 0; then the handler executes their concatenation once |
| CommandWrite.AlwaysTerminated | src/wt_ble.c:243-282 | Over every sequence of writes and handler runs both buffers keep a NUL in their last byte and every executed command is a C string of at most 254 bytes |
| CommandWrite.Buffers.constructor | src/wt_ble.c:43-53 | Both buffers zeroed, nothing running |
| CommandWrite.Buffers.WriteFragment | src/wt_ble.c:243-282 | The callback on the two buffers and the busy flag does what the value-level write does, with the same answer |
| CommandWrite.Buffers.Place | src/wt_ble.c:255-260 | The fragment lies at its offset with a NUL behind it, in a cleared buffer if the offset is 0 |
| CommandWrite.Buffers.CopyToWork | src/wt_ble.c:269-270 | The work buffer holds the command's C string and NULs to its end |
| CommandWrite.Buffers.HandlerBegin | src/wt_ble.c:1385-1396 | The handler takes the C string of the work buffer |
| CommandWrite.Buffers.HandlerEnd | src/wt_ble.c:1401 | Only the busy flag and the handler's own state change |
| CommandWrite.WhatRuns | src/wt_ble.c:243-282 | For any fragments written one behind the other from any state, exactly when a command is executed and which: with n the number that fit, if and only if n > 0 and either no command is being handled or the last that fits is not at offset 0; then the text of the first n, or of the first alone if the last that fits is at offset 0 |
| CommandWrite.TooLongStillRuns | src/wt_ble.c:250-253 | Of a command that turns out too long something is executed if and only if its first fragment fits, and it is what was accepted |
| CommandWrite.TurnedAwayStillRuns | src/wt_ble.c:255-267 | A command turned away while another is being handled is executed all the same if and only if a later fragment of it fits behind some text |
| CommandRuns.ExecutedOrOverwritten | src/wt_ble.c:243-282 | In every interleaving of writes and handler steps an accepted command is executed, once and in order, if the handler begins before the next write is accepted, and overwritten if not; nothing else is executed |
| CommandRuns.AllCommandsRun | src/wt_ble.c:1385-1402 | Commands of at most 254 bytes, each handled before the next is written, are all executed, once and in order, and leave the port as ready as before |
| CommandRuns.FragmentsInterleaved | src/wt_ble.c:269-280 | Fragments of a command that fits, with handler steps anywhere between them, are all accepted, and the handler executes what has arrived each time it begins: a part of the command if it does not wait for the last fragment |
| Transmit.TransmitIsUnderstood | src/wt_ble.c:1144-1185 | A transmit command with quoted arguments, with or without request id and prefix, is understood as exactly those arguments if it fits the command buffer and the argument vector |
| Transmit.BothIsUnderstood | src/wt_ble.c:933-966 | So is one for Wi-Fi and Bluetooth, with address and port first and exactly the arguments behind them |
| Transmit.UnderstandExactly | src/wt_ble.c:865-966 | Exactly which words are which transmit command, with and without request id and prefix and under either name |
| NoMessage.RawPayloadExactly | src/wt_ble.c:783-841 | A transmit command without a message, exactly: on the raw line at least two words follow those skipped as id and prefix; if no more do, nothing is transmitted; else the words behind these two are the message, and it is transmitted unless they cannot be split or are too long when joined |
| NoMessage.TwoFollow | src/wt_ble.c:875-885 | The two words of the command are at least two words on the raw line as well, behind what is skipped there |
| NoMessage.UnquotedTransmitsExactly | src/wt_ble.c:783-819 | Without quotes and backslashes such a command transmits nothing, EINVAL, if and only if it has no prefix or one followed by a blank or a tab; behind another white space the prefix counts as a word and the command's second word is transmitted |
| NoMessage.NothingToTransmit | src/wt_ble.c:875-885 | Printed with single blanks and without quotes such a command transmits nothing: EINVAL |
| NoMessage.BreakTransmitsName | src/wt_ble.c:798 | With a line break behind the prefix the name of the interface is transmitted |
| NoMessage.BlankIdTransmitsCommand | src/wt_ble.c:783-819 | With a quoted request id that holds a blank the raw line is cut in other places than the words, and the command itself is transmitted as its message |
| Transmit.Execute | src/wt_ble.c:865-966 | The transmit commands for Bluetooth, with the message from the words or from the raw line, and for Wi-Fi and Bluetooth together: a payload shorter than 244 bytes is handed to the transmit path, for both only once Wi-Fi took it, else the error of the join or the split and nothing is queued; a line that cannot be parsed or asks for nothing queues nothing. Of other commands nothing is promised |
| Transmit.SplitLine | src/wt_ble.c:1158-1161 | The line is cut to 254 bytes, copied and split there |
| Transmit.PayloadFromTail | src/wt_ble.c:821-841 | The message from the raw line, split into at most twelve words and joined, or the error |
| RawLine.RawTxTail | src/wt_ble.c:783-819 | What lies behind the request id, the prefix and the two words of the command on the raw line, if anything does |
| RawLine.TailExactly | src/wt_ble.c:783-819 | There is a message on the raw line if and only if more than two words follow those skipped, and it consists of the words behind these two |
| RawSplit.SplitUnquoted | src/wt_common.c:66-135 | Words without quotes and backslashes are split where one sees them, or E2BIG if and only if there are too many |
| RawSplit.SplitAtMost | src/wt_common.c:66-135 | On any line the splitter finds no more words than one sees |
| RawLine.SkipTokenRaw | src/wt_ble.c:774-781 | Skips blanks, a word, and blanks |
| ScanTable.Table.StoreResult | src/wt_wifi.c:329-381 | After any sequence of results: at most ten rows, by falling signal and of distinct names, each showing its network's strongest report ever with everything the driver said of it; every other network seen is no stronger than any row of a full table. A result that does not count changes nothing, one that does takes a free row, its network's own, or the weakest |
| ScanTable.NameExactly | src/wt_wifi.c:339-341 | A network's name is the longest beginning of the reported one without a NUL, within its length and within 32 bytes |
| ScanTable.TopIsLaw | src/wt_wifi.c:329-381 | What the table keeps is that law |
| ScanTable.Table.FindBySsid | src/wt_wifi.c:305-314 | The first used row of that name, or none |
| ScanTable.Table.Sort | src/wt_wifi.c:316-327 | Sorted, a permutation, and the identity on a sorted table |
| ScanTable.Table.Clear | src/wt_wifi.c:295-303 | The empty table of a new scan |
| ScanTable.Table.Choose | src/wt_wifi.c:347-365 | The row to replace, whichever branch is taken, keeps the table the strongest of everything seen once the new entry is in it |
| ScanTable.Table.Put | src/wt_wifi.c:367-378 | Replaces one row by the new entry and sorts |
| ScanTable.BetterReport | src/wt_wifi.c:348-352 | A stronger report of a listed network may take its row |
| ScanTable.IgnoredReport | src/wt_wifi.c:349-360 | A report no stronger than its own row, or than a full table, may be forgotten |
| ScanTable.NewReport | src/wt_wifi.c:362-364 | A new network may take a free row |
| ScanTable.EvictingReport | src/wt_wifi.c:354-361 | A new network may take the weakest row of a full table, and the evicted network may be forgotten |
| ScanOffline.TableIsTopTen | src/wt_wifi.c:329-381 | Row by row the table has the signal strengths of the first ten of the offline ranking of all networks seen, and as many rows |
| ScanOffline.RankingExists | src/wt_wifi.c:329-381 | Every sequence of results has such an offline ranking |
| ScanPower.AutoPowerNotLeaked | src/wt_wifi.c:392-487 | Over every run without early error returns of a scan start and without an auto-off firing while associated, auto-power implies a requested or running scan, a pending auto-off, an event being handled or a thread inside a scan start; when those are through, a running scan or a pending auto-off is left |
| ScanPower.LeakExactly | src/wt_wifi.c:392-487 | The auto-power flag is never left set with nothing to clear it, in any run, if and only if no scan start takes its early error returns and the auto-off does not fire during an association |
| ScanOwner.ForNobodyExactly | src/wt_wifi.c:392-487 | Wi-Fi is never left on without anybody having asked for it and without anything under way to end it, in any run, if and only if no scan start takes its early error returns, the auto-off does not fire during an association, and nothing drops Wi-Fi between a scan start's look at it and its request for it |
| ScanOwner.DropForNobody | src/wt_wifi.c:438-443 | Without the last of these: the auto-off of the scan before fires between that look and that request, and Wi-Fi stays on with the flag cleared |
| ScanOwner.StepKeepsOwned | src/wt_wifi.c:392-487 | Each step keeps Wi-Fi that is on, or about to be, asked for or held by auto-power |
| ScanPower.StepKeepsAuto | src/wt_wifi.c:392-487 | Each step of threads, event handler and delayed work keeps auto-power looked after |
| ScanPower.StepKeepsRequest | src/wt_wifi.c:409-440 | Each step keeps a requested scan in the hands of a thread that will start it or drop the request |
| ScanPower.EarlyErrorLeaks | src/wt_wifi.c:445-454 | After an early error return Wi-Fi stays powered with nobody to end it |
| ScanPower.AssociationLeaks | src/wt_wifi.c:1379-1387 | So it does when the auto-off fires during an association that ends later |
| ScanPower.WifiSurvivesScans | src/wt_wifi.c:405-487 | Wi-Fi that was asked for stays requested over every run of scans, retries, failures, events and auto-offs, until it is switched off or the worker's preparation fails |
| ScanPower.WifiStaysExactly | src/wt_wifi.c:405-487 | From any state with Wi-Fi requested, all runs without an off and a worker failure keep it requested if and only if auto-power is off |
| ScanPower.WifiOnDuringScanIsLost | src/wt_wifi.c:1193-1202 | Switching Wi-Fi on keeps it on under the same condition: the switch leaves the auto-power flag as it is, so during an auto-powered scan it does not |
| ScanPower.WifiAtWorkExactly | src/wt_wifi.c:436-487 | A thread at work on a scan start finds Wi-Fi requested, in all runs, if and only if nobody switches it off, the worker does not fail, and the auto-off does not take effect while a thread is at work |
| ScanPower.AutoOffExactly | src/wt_wifi.c:1379-1387 | At the step: the auto-off takes Wi-Fi from a thread at work if and only if it takes effect while there is one |
| ScanPower.RetryWithWifiOff | src/wt_wifi.c:466-484 | The auto-off of a refused attempt can fire before the next attempt of the same scan start, which then asks with Wi-Fi off |
| ScanAttempts.AttemptsExactly | src/wt_wifi.c:466-484 | In every run a scan start asks the driver at most eleven times, all refusals but the last were busy ones, and after a refusal it asks again if and only if the driver was busy and it has asked fewer than eleven times |
| ScanAttempts.ScanLeavesNoTrace | src/wt_wifi.c:392-487 | With nothing else going on a scan leaves everything as it was, Wi-Fi included, after any number of busy refusals up to ten and then its end or a last refusal |
| ScanGuards.NoSecondScan | src/wt_wifi.c:434-436 | While a scan is requested or running no other start gets past its test, before an early error, a refusal, the end of the scan, or Wi-Fi is switched off |
| ScanGuards.ProvidedExactly | src/wt_wifi.c:442-443 | A requested scan has Wi-Fi requested, or a thread about to request it, in all runs, if and only if the worker's preparation does not fail |
| ScanGuards.RunningHasWifiExactly | src/wt_wifi.c:405-487 | A running scan has Wi-Fi requested, in all runs, if and only if nobody switches it off, the worker does not fail, and the auto-off does not take effect while a thread is at work |
| ScanGuards.AutoEndsExactly | src/wt_wifi.c:1379-1387 | Auto-power ends exactly when Wi-Fi is switched off, or the auto-off fires with no scan requested or running and no association; then Wi-Fi is off and nothing is requested |
| JsonEscape.FillIsEscape | src/wt_wifi.c:255-293 | The bounded output is the whole escaped text if and only if that fits |
| JsonEscape.WellFormedExactly | src/wt_wifi.c:266-289 | For every buffer size the output is the body of a JSON string unless one byte is left when a quote or backslash is due, and then it is not |
| JsonEscape.UnescapeEscape | src/wt_wifi.c:266-289 | Reading the escaped text back gives the source without its characters below 32 other than tab, line feed and carriage return |
| JsonEscape.ReadsBackExactly | src/wt_wifi.c:266-289 | The very source if and only if it has none of those; blanks and all other characters survive |
| JsonEscape.FillBegins | src/wt_wifi.c:266-289 | What does not fit is cut: all but the last byte of the room holds the escaped text as far as it goes |
| JsonEscape.NameReadsBack | src/wt_wifi.c:548-583 | A listed network's name always fits the scan item's buffer of 65 bytes and reads back, as the very name if and only if it has no character below 32 other than tab, line feed and carriage return |
| JsonEscape.Escape | src/wt_wifi.c:255-293 | At most twice as long as the source |
| JsonEscape.EscapeInto | src/wt_wifi.c:255-293 | The loop fills the buffer with exactly the bounded output, terminated; nothing for a buffer of no size, the empty text for no source |

## Left out

- Response.Sender: one stream writer at a time, and texts that do not alias the frame buffer, are assumed; the firmware shares that buffer between the response and transmit streams without a lock.
- QueueMachine: a flusher's readiness test and its pop are one step, and so are a push's locked region and the scheduling of the work handler; a push's guards are a step of their own. With one connection configured (prj.conf:33) a connection, or the failure of one, is reported only when none is left. A connection callback is one step.
- ScanPower: modelled on values. A sleep is no step, a connection callback is one step, and so are the test and the reset in lines 410 to 411 of `src/wt_wifi.c`, the auto-off handler, and switching Wi-Fi off. Statuses, time stamps, semaphores and driver calls are not part of it.
- CommandWrite: the two halves of the handler, taking the command and clearing the busy flag, are steps; a write is one step. The reply to a too long command is not sent in the model.
- Transmit.Execute: only the transmit commands for Bluetooth are executed, and replies are not sent; how sending over Wi-Fi ends is a parameter. Other commands (ping and bridge transmit over Bluetooth too) are told apart from these, and nothing is promised of what they do.
- Stream.StreamCtx.Write: keeps what lies beyond the offset instead of the offset, and tests the frame limit before it prints the header rather than after.
- Transfer: pieces are free of NULs, as C strings are; the console strips trailing NULs frame by frame.
- Console.Receiver: the gluing of half JSON responses and the suppression of a response repeated within 500 ms depend on `JSON.parse` and the clock and are not part of this model; neither are characters of several bytes cut by a frame boundary, since the console decodes each frame on its own.
- The console's handlers for transmitted payloads and UDP packets (BLE_Webapp/index.html:970-1021, 1544-1599) are the same code with other maps and share this model; for UDP the key is source and id.
- Null pointers: arguments the firmware checks against null are of types without null, except the source of the JSON escape and the scan result.
- Sleeps, time-outs, logging, LEDs and the delays between frames.
- The UDP transport, its command service and `server.js`.
- Command dispatch, status formatting, shell, credentials, settings, radio modes, reboot, QSPI and MAC setup: string comparison and library calls with easy claims only.
- Advertising, bonding and the GATT tables beyond the flags the queue tests.
