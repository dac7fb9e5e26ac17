# A verified model of ewss

ewss is a single-threaded WebSocket server for embedded Linux: a `poll` reactor, one fixed receive
ring and one fixed send ring per connection, an incremental frame parser, a four-state protocol
machine with application callbacks, and its own SHA-1 and Base64. This project models that code in
Dafny and proves what it promises over whole runs.

## How it is built

- `Bytes`, `RingBuffer`, `Frame`, `Sha1`, `Base64`, `ObjectPool`: the building blocks. Loops over
  buffers are methods on arrays, each proved against a function; the functions carry the laws.
- `Protocol`: one connection as a value, and every entry point of its code as a function of it. An
  application is any function from the history so far to the calls a callback makes, so callbacks may
  send and close at will, also from inside other callbacks; that the nesting terminates is part of the
  model. Reads and writes transfer any number of bytes up to what is offered, so every list of steps
  is a run. A frame whose size wraps around 2^64 can make the receive loop repeat one turn for ever or
  use memory past its array; that is recorded as a fault, after which nothing happens any more.
- `Connection`: the class over two ring buffers. Every method refines its function in `Protocol`, so
  `PerformAll` makes the run theorems theorems about the object.
- `Actions`: the fifteen atomic actions of a connection and an induction principle, `RunKeeps`: what
  every action keeps, every run keeps, however callbacks nest. `Lifecycle`, `Backpressure` and
  `SendStream` are instances of it.
- `ReceiveStream`, `ReceiveRuns`, `ChunkIndependence`, `HandshakeRuns`, `EndToEnd`: what is received, over
  runs. `CloseCallbacks`: how often the close callback is made, and the close handshake. `Sockets`: what
  each step takes from and gives to the socket.
- `Server`: the reactor over connections with identities, in which a callback may also act on other
  connections. Every connection in it is the result of some run of its own (`ReachableLaws`); `Serving`
  says of which: a turn is exactly the steps that its poll results and calls ask for. `Timeouts`: when a
  connection is overdue.
- `HashSample`, `Samples`: the examples of RFC 6455 and RFC 4648 worked through the model, which fix every
  constant, table and text in it. The words and states of the sample hash are listed in steps of ten rounds.

The main results are `ChunksDoNotMatter`, `FromCreation`, `DeliveredIsAll`, `OpensAtLastByte`,
`StreamMeaning`, `SentIsAccepted`, `EventsInOrder`, `ClosesAnnounced`, `HysteresisHolds`,
`ComputeInPieces`, `EncodeInvertsDecode`, `EncodedText`, `SampleHandshake`, `ZeroCopyAppends`, `Exercise`,
`ServedAsRun`, `OverdueExactly` and `Server.Run`.

Where a natural law is not true of the code, the exact condition is proved instead: the sent stream is
the frames written if and only if no write was cut after its header (`StreamMeaning`, `CutExactly`), and
a cut makes it decode to a message that was never sent (`CutBreaksStream`); the code's framing is that of
the standard exactly while no size that wraps around 2^64 is read past, and a turn of the loop shortens
the buffer exactly when the length is not 2^64 minus the header size (`StandardExactly`,
`DeliveredIsStandard`, `TurnShortens`, with inputs in `WrappedStream`, `WrappedDelivery` and
`SpinningInput`); the close callback is made exactly once exactly when no peer's Close frame was read in
the Open state, and otherwise two or three times (`ClosesAnnounced`, `CloseCallbackOnce`, `PeerCloseStep`,
with inputs in `NoEcho` and `ThreeCallbacks`); the echo that section 5.5.1 of RFC 6455 demands is written
exactly if a callback of that read closes the connection, and never leaves before the socket is shut
(`PeerCloseStep`); the peer's Close frame completes the close handshake exactly if it is at the front of
the receive buffer, so that a frame received before it hides it for ever (`ClosingReads`, `HiddenClose`);
a frame read together with the request is delivered by a later read only
(`FrameWithRequestWaits`), and all messages are delivered exactly when none is left in the buffer;
after a close frame the receive loop still answers pings of the same read, and only those
(`LoopAfterClose`, `PongAfterClose`, `SilentAfterClosing`); bytes behind a request matter exactly when
they spell the key header, the request does not, and they name another key (`ExtraBytesIgnored`, with an
input in `KeyReplaced`); a request of more than 1024 bytes never opens (`LongRequestNeverOpens`); the
active counter is right exactly when it was reset with no connections in the list (`ActiveIsRight`), and
once fewer are listed than at the reset the server admits nobody any more (`Server.Run`); Base64
re-encoding is the identity on canonical texts and on no others (`EncodeInvertsDecode`); the contiguous
view is the queue exactly when it does not wrap (`View`).

The design document (docs/design_zh.md:149 and docs/design_zh.md:214) has a peer's Close frame lead from
Open through Closing and a close in Closing do nothing. In the code the first leads to Closed at once
and the second shuts the connection. The model follows the code (`PeerCloseStep`, `CallsWhileClosing`).

## Model

| member | source | states |
|---|---|---|
| Rings.RingBuffer.Push | include/ewss.hpp:802-810 | pushing appends all bytes to the queue, or none, and succeeds exactly when they fit |
| Rings.RingBuffer.Peek | include/ewss.hpp:812-820 | peeking copies the front of the queue in order and changes nothing |
| Rings.RingBuffer.Advance | include/ewss.hpp:822-826 | advancing drops that many bytes from the front, at most all |
| Rings.RingBuffer.Clear | include/ewss.hpp:832 | clearing leaves the empty queue |
| Rings.RingBuffer.View | include/ewss.hpp:834-837 | the contiguous view stays inside the array, and then is the whole queue, exactly when the contents do not wrap |
| Rings.RingBuffer.FillIovec | include/ewss.hpp:840-858 | gathering two regions yields exactly the queue; one region yields a non-empty prefix of a non-empty queue |
| Rings.RingBuffer.FillIovecWrite | include/ewss.hpp:861-880 | the offered regions are exactly the free slots in ring order and contain no live byte |
| Rings.RingBuffer.ReadPtr | include/ewss.hpp:888-893 | the pointer view is a prefix of the queue, empty only if the queue is |
| Rings.RingBuffer.CommitWrite | include/ewss.hpp:882-886 | committing appends to the queue exactly what lies in the committed slots from the write index on, never past the capacity |
| Rings.RingBuffer.Receive | include/ewss.hpp:1236-1246 | a zero-copy receive has the effect of a push of the same bytes |
| Rings.ZeroCopyAppends | include/ewss.hpp:861-886 | in every ring state, scattering any bytes into the offered regions and committing appends exactly those bytes and keeps every live byte |
| Frames.ParseFrameHeader | include/ewss.hpp:644-669 | the loop parser answers zero exactly when bytes are missing and otherwise the header and its size |
| Frames.EncodeFrameHeader | include/ewss.hpp:690-705 | the in-place encoder writes the header encoding |
| Frames.EncodeFrame | include/ewss.hpp:671-688 | the frame encoder is the header encoding followed by the payload |
| Frames.HeaderRoundTrip | include/ewss.hpp:644-705 | parsing an encoded header, with a key when masked and any bytes behind, returns its fields and size |
| Frames.HeaderFields | include/ewss.hpp:644-669 | a header is complete exactly when its size has arrived, and its flags, opcode, length code and big-endian length lie at the bit positions of section 5.2 of RFC 6455 |
| Frames.FirstByte | include/ewss.hpp:690-692 | encoded headers have FIN set, no reserved bits and the opcode in the low half |
| Frames.HeaderVectors | include/ewss.hpp:690-705 | the headers of the examples in section 5.7 of RFC 6455 |
| Frames.HeaderPrefix | include/ewss.hpp:644-669 | parsing a prefix waits or gives the final answer |
| Frames.EncodingIsMinimal | include/ewss.hpp:690-705 | no header the parser reads as the same length and mask flag is shorter than the encoder's |
| Frames.TurnShortens | include/ewss.hpp:1442-1474 | with the size taken modulo 2^64 a turn waits exactly when less than that has arrived, removes exactly that, and shortens the buffer if and only if the length is not 2^64 minus the header size |
| Frames.SpinningInput | include/ewss.hpp:1432-1474 | ten bytes on which the loop never ends |
| Frames.TopBitClear | include/ewss.hpp:1442-1443 | a length with the top bit clear neither wraps nor leads to a fault |
| Frames.StandardExactly | include/ewss.hpp:1437-1474 | the frames the code reads are those of section 5.2 of RFC 6455 if and only if the code does not read past a size that wraps |
| Frames.WrappedStream | include/ewss.hpp:1442-1474 | fourteen bytes that hold no whole frame by the standard and in which the code reads three |
| Frames.UnmaskPayload | include/ewss.hpp:1504-1506 | the in-place loop changes exactly the given range, each byte by the exclusive or with byte i mod 4 of the key |
| Frames.UnmaskIs | include/ewss.hpp:1504-1506 | byte i of an unmasked payload is the bitwise exclusive or with byte i mod 4 of the key |
| Bytes.XorIsBitwise | include/ewss.hpp:1505 | exclusive or on bytes is that of eight-bit vectors |
| Frames.HelloFrames | include/ewss.hpp:1431-1451 | the masked and the unmasked Hello of section 5.7 of RFC 6455 |
| Frames.UnmaskTwice | include/ewss.hpp:1504-1506 | unmasking undoes masking |
| Frames.FrameRoundTrip | include/ewss.hpp:644-705 | a received frame gives back opcode and unmasked payload of the frame sent, masked or not |
| Frames.NextFramePrefix | include/ewss.hpp:1437-1451 | once the front frame is decided, more bytes do not change it |
| Frames.DecodeInPieces | include/ewss.hpp:1431-1476 | reading a stream in two pieces gives the same frames and remainder as at once |
| Frames.DecodeConcat | include/ewss.hpp:1431-1476 | a concatenation of frames decodes to exactly those frames with nothing left |
| Base64.EncodeBytes | include/ewss.hpp:480-495 | the loop computes the encoding |
| Base64.DecodeText | include/ewss.hpp:497-539 | the loop computes the decoding, for every input text |
| Base64.EncodedText | include/ewss.hpp:480-495 | every character of an encoding: the letter of its six bits in the alphabet of RFC 4648, and = exactly behind the last of them |
| Base64.AlphabetIs | include/ewss.hpp:482-517 | the encoding table is the alphabet in order, and the decoding table gives 64 exactly outside it |
| Samples.EncodingVectors | include/ewss.hpp:480-495 | the test vectors of section 10 of RFC 4648 |
| Samples.ForeignText | include/ewss.hpp:522-527 | what a text with characters outside the alphabet decodes to |
| Base64.DecodeInvertsEncode | include/ewss.hpp:480-539 | decoding inverts encoding for every byte string, and the encoding has 4*ceil(n/3) characters |
| Base64.EncodeInvertsDecode | include/ewss.hpp:480-539 | encoding inverts decoding exactly on the canonical texts of section 4 of RFC 4648 |
| Sha1.OrForms | include/ewss.hpp:614-618 | the or forms of Ch and Maj equal the forms of section 4.1.1 of FIPS 180-4 |
| Sha1.Hasher.ProcessBlock | include/ewss.hpp:603-623 | the block loop is the compression function of section 6.1.2 of FIPS 180-4 |
| Sha1.Hasher.Update | include/ewss.hpp:565-571 | after an update the object has absorbed the old message followed by the new bytes |
| Sha1.Hasher.Finalize | include/ewss.hpp:573-593 | finalize gives the digest of the padded message, for every length |
| Sha1.PaddingRule | include/ewss.hpp:573-584 | the padding completes a block and ends with the length in bits, exact below 2^61 bytes |
| Sha1.PadIsMinimal | include/ewss.hpp:574-580 | no smaller number of zero bytes completes a block |
| Sha1.Compute | include/ewss.hpp:548-552 | the one-shot hash is the standard's digest |
| Sha1.ComputeInPieces | include/ewss.hpp:565-593 | any split of a message across updates gives the digest of the whole |
| HashSample.SampleHash | include/ewss.hpp:595-623 | the hash of the two blocks of the handshake sample, which fixes all round constants and the initial value |
| Handshake.ResponseLength | include/ewss.hpp:1405-1417 | the accept key has 28 characters and the response 129 bytes for every client key |
| Handshake.GenerateAcceptKey | include/ewss.hpp:1496-1502 | the accept key is the Base64 text of the SHA-1 digest of key and magic |
| Samples.SampleAcceptKey | include/ewss.hpp:1496-1502 | the accept key of section 1.3 of RFC 6455 |
| Samples.SampleResponse | include/ewss.hpp:1405-1412 | the whole text of the response to that key |
| Samples.SampleHandshake | include/ewss.hpp:1356-1429 | a new connection that reads that request opens and has queued that response first, with any callbacks |
| Handshake.ReadRequest | include/ewss.hpp:1362-1400 | the request reader with its trimming loop computes the model's answer: waiting, malformed, or size and key |
| HandshakeRuns.RequestText | include/ewss.hpp:1362-1400 | every text of the form GET, line, key header, key, further headers is a complete request with that key, under conditions on the text alone |
| HandshakeRuns.SimpleRequest | include/ewss.hpp:1362-1400 | in the simplest case it is enough that the lines contain no line end and the first not the header |
| HandshakeRuns.KeyHeaderFound | include/ewss.hpp:1374-1386 | with bytes behind the request, its own key header is found exactly when it is spelled canonically or those bytes do not spell it |
| HandshakeRuns.ExtraBytesIgnored | include/ewss.hpp:1356-1402 | bytes behind a complete request change neither its size nor its key if and only if the request spells the header canonically, they do not, or they name the same key |
| HandshakeRuns.OtherKeyRead | include/ewss.hpp:1374-1400 | otherwise the key is the one named behind the request, or the request counts as malformed |
| HandshakeRuns.KeyReplaced | include/ewss.hpp:1374-1400 | a complete request with key a that is taken for one with key b because of the line behind it |
| HandshakeRuns.OpensAtLastByte | include/ewss.hpp:1127-1134 | a complete request of at most 1024 bytes, cut into reads in any way and followed by anything that leaves its key standing in the 1024 bytes looked at by the completing read, opens the connection exactly when its last byte is read and is answered with the response to its key |
| HandshakeRuns.OpenedExactly | include/ewss.hpp:1402-1429 | the whole effect of a successful attempt: request taken, response queued, open callback made, and then the calls of that callback |
| HandshakeRuns.TakesHeads | include/ewss.hpp:1356-1402 | over every run, what was taken as the request ends at its first blank line and has at most 1024 bytes |
| HandshakeRuns.LongRequestNeverOpens | include/ewss.hpp:1357-1367 | a request head of more than 1024 bytes never opens the connection and nothing is ever sent |
| HandshakeRuns.FrameWithRequestWaits | include/ewss.hpp:1127-1134 | a text frame in the same read as any complete request is not delivered by that read |
| ReceiveRuns.HandshakeDeliversNothing | include/ewss.hpp:1127-1134 | a read in Handshaking delivers no message, whatever it contains |
| HandshakeRuns.QuietUntilOpen | include/ewss.hpp:1414-1423 | in Handshaking the send buffer is empty, so the buffer-failure exits are unreachable |
| ReceiveRuns.FailedHandshake | include/ewss.hpp:1356-1400 | a failed attempt leaves both buffers unchanged |
| Connections.Connection.WriteFrame | include/ewss.hpp:1478-1484 | refines the model's frame write: header and payload pushed separately |
| Connections.Connection.Invoke | include/ewss.hpp:1316-1332 | refines send and close, with every callback they trigger |
| Connections.Connection.ParseHandshake | include/ewss.hpp:1356-1429 | refines the handshake attempt |
| Connections.Connection.ParseFrames | include/ewss.hpp:1431-1476 | refines the receive loop with its size modulo 2^64; every turn that is not a fault ends the loop or shortens the receive queue |
| Connections.Connection.HandleRead | include/ewss.hpp:1236-1262 | refines the read event through the zero-copy regions |
| Connections.Connection.HandleWrite | include/ewss.hpp:1264-1286 | refines the copying write path |
| Connections.Connection.HandleWriteVectored | include/ewss.hpp:1288-1314 | refines the zero-copy write path |
| Connections.Connection.PerformAll | include/ewss.hpp:932-1034 | any sequence of steps on the object is the model's run |
| Sockets.WriteTakes | include/ewss.hpp:1264-1314 | a write of which the socket accepts n bytes gives it exactly the first n and keeps the rest at the front, on either path and with any callbacks |
| Sockets.SentIsAccepted | include/ewss.hpp:1264-1314 | over every run the bytes recorded as sent are as many as the socket accepted |
| Sockets.StepSends | include/ewss.hpp:1236-1332 | every step gives the socket what it accepts and otherwise only appends to the send buffer |
| Sockets.ReceivedIsRead | include/ewss.hpp:1236-1249 | over every run what is recorded as received is what the reads delivered, at most the free part of 4096 bytes at a time |
| Sockets.ReadCodes | include/ewss.hpp:1236-1262 | exactly when a read reports a full buffer, an end of stream, a socket error or success, and a failed one changes nothing else |
| Sockets.WriteCodes | include/ewss.hpp:1264-1314 | the same for a write on either path |
| Protocol.Invoke | include/ewss.hpp:1316-1354 | nested callbacks terminate, leave the receive queue alone, never move the state back and keep socket and state in step |
| Lifecycle.CallsAsRun | include/ewss.hpp:1316-1354 | what a callback calls has exactly the effect of the same calls made one after the other from outside |
| Lifecycle.CloseExactly | include/ewss.hpp:1323-1332 | the whole effect of a close in each of the four states |
| Actions.RunKeeps | include/ewss.hpp:1127-1520 | what every atomic action keeps, every run keeps |
| Lifecycle.NeverBackwards | include/ewss.hpp:1338-1354 | over any continuation the state never moves backwards and histories only grow |
| Lifecycle.EventsInOrder | include/ewss.hpp:1316-1354 | the open callback is made at most once and before every message; at most one close frame is written and no text or binary frame after it |
| Lifecycle.SilentAfterClosing | include/ewss.hpp:1162-1195 | after a step that ends in Closing or Closed no message is delivered, no frame written and no byte consumed |
| Lifecycle.RunSynced | include/ewss.hpp:1323-1336 | after every step the socket is shut exactly when the state is Closed |
| CloseCallbacks.ClosesAnnounced | include/ewss.hpp:1323-1354 | over every run, with any callbacks: the close callback is made exactly once, on closing, unless a peer's Close frame was read in Open; then the one for the frame exactly once and the one for the closed connection once or twice |
| CloseCallbacks.CloseCallbackOnce | include/ewss.hpp:1323-1354 | no close callback exactly while not Closed; exactly one exactly in Closed without such a read |
| CloseCallbacks.PeerCloseStep | include/ewss.hpp:1460-1464 | a read of the peer's Close frame in Open ends in Closed with the socket shut and nothing sent; the order of the callbacks, three exactly if the application had closed by then; a close frame written exactly if a callback of that read closed |
| CloseCallbacks.LoopDrains | include/ewss.hpp:1431-1476 | the loop reaches the peer's Close frame exactly when the bytes have a whole Close frame behind the frames before it |
| CloseCallbacks.NoEcho | include/ewss.hpp:1460-1464 | two bytes for which both close callbacks are made and no close frame answers |
| CloseCallbacks.ThreeCallbacks | include/ewss.hpp:1460-1464 | the same bytes and an application that gets three close callbacks |
| CloseCallbacks.ClosingReads | include/ewss.hpp:1162-1175 | a read in Closing ends in Closed exactly if the header of a Close frame is then at the front of the buffer, and consumes nothing |
| CloseCallbacks.HiddenClose | include/ewss.hpp:1162-1175 | a frame received before the peer's Close frame hides it over every run |
| Backpressure.HysteresisHolds | include/ewss.hpp:1508-1520 | paused means at least 2048 buffered bytes; backpressure and drain alternate, backpressure first, with at least 4098 bytes sent in between |
| Backpressure.RaisedExactly | include/ewss.hpp:1508-1513 | backpressure is raised by exactly the send that takes an unpaused connection above 6144 bytes, right behind its frame, followed by the calls of that callback |
| Backpressure.DrainedExactly | include/ewss.hpp:1515-1520 | drain is raised by exactly the write that takes a paused connection below 2048 bytes; any other write only moves bytes |
| SendStream.OutputConserved | include/ewss.hpp:1264-1314 | on either write path, bytes sent followed by bytes buffered are all bytes ever pushed, in order |
| SendStream.CutExactly | include/ewss.hpp:1478-1484 | whatever callbacks follow, a send leaves its header and not its payload in the buffer if and only if the header fits into the room and the whole frame does not |
| SendStream.CloseCutExactly | include/ewss.hpp:1486-1494 | the close frame is missing exactly with less than two bytes free, cut exactly with two or three, whole otherwise |
| SendStream.PongCutExactly | include/ewss.hpp:1465-1484 | a pong is missing, cut or whole exactly by the room for its header and payload |
| SendStream.CutBreaksStream | include/ewss.hpp:1478-1484 | three sends after which the stream decodes to a message never sent and the last message never arrives |
| SendStream.EncodingsUnique | include/ewss.hpp:690-705 | two lists of sent frames with the same bytes are the same list |
| SendStream.StreamMeaning | include/ewss.hpp:1478-1494 | over every run the stream is the response and then the frames written, and decodes to them, if and only if no write was cut |
| ReceiveStream.LoopReads | include/ewss.hpp:1431-1476 | the loop removes whole frames only, delivers exactly their messages and stops at a partial frame, a Close frame or a fault |
| ReceiveStream.FrameExactly | include/ewss.hpp:1452-1473 | what each opcode does: message callback with its calls, pong, or nothing |
| ReceiveStream.SpinningRepeats | include/ewss.hpp:1432-1474 | a spinning turn leaves the receive buffer as it was and, unless it answers a ping, the whole connection |
| ReceiveStream.SpinsForEver | include/ewss.hpp:1432-1484 | after any number of such turns the loop still spins, and only a ping has changed anything: the send buffer holds as many ten-byte pong headers as fit |
| ReceiveStream.FullExactly | include/ewss.hpp:1236-1242 | a full receive buffer still waits exactly when the frame at its front declares more than 4096 bytes |
| ReceiveStream.LoopAfterClose | include/ewss.hpp:1432-1475 | after a callback has closed the connection the rest of the loop writes exactly the pongs of the remaining pings, with their payloads and in order |
| ReceiveStream.PongAfterClose | include/ewss.hpp:1465-1468 | a concrete read in which a pong follows the close frame |
| ReceiveRuns.DeliveredIsPrefix | include/ewss.hpp:1236-1249 | over every run, with any callbacks, the messages delivered are those of the first frames the code reads after the request, and all of them exactly when none is left in the buffer |
| ReceiveRuns.DeliveredIsAll | include/ewss.hpp:1236-1249 | after a read in Open they are all of them: a function of the bytes received, not of how they were cut |
| ReceiveRuns.DeliveredIsStandard | include/ewss.hpp:1431-1476 | over every run that does not read past a wrapping size they are messages of the frames of section 5.2 of RFC 6455 |
| ReceiveRuns.WrappedDelivery | include/ewss.hpp:1442-1474 | a read that delivers a message although by the standard no frame has arrived |
| ChunkIndependence.PrefixWaits | include/ewss.hpp:1439-1443 | what is left of any prefix of a stream of frames is a proper prefix of one frame, and there is room for more |
| ChunkIndependence.ChunksDoNotMatter | include/ewss.hpp:1431-1476 | for every list of masked or unmasked non-Close frames of at most 4096 bytes and every split into reads, interleaved with writes and sends, exactly the text and binary payloads are delivered, unmasked and in order, and no read finds the buffer full |
| EndToEnd.FromCreation | include/ewss.hpp:1236-1249 | from creation, a complete request and such frames in any split, interleaved with writes and sends: no read finds the buffer full, what came with the request waits for another read, and then only part of a frame is ever left |
| EndToEnd.DeliveredFromCreation | include/ewss.hpp:1127-1134 | everything has been delivered if and only if something has been read since the request or no message came with it |
| Pools.ObjectPool.Acquire | include/ewss.hpp:723-729 | acquire hands out a slot not in use, or fails exactly when all are in use |
| Pools.ObjectPool.Release | include/ewss.hpp:731-737 | release frees a slot in use and ignores every other index |
| Pools.ObjectPool.InUse | include/ewss.hpp:744 | the count in use is the number of active slots |
| Pools.ObjectPool.IsActive | include/ewss.hpp:745-747 | an index is active exactly if it is one of the active slots, out-of-range indices included |
| Pools.InUseIsActive | include/ewss.hpp:742-747 | a free list that lists the inactive slots once each adds up with the active slots to the capacity |
| Pools.Exercise | include/ewss.hpp:716-747 | over any sequence of acquire, release and reset the active slots are exactly those the client holds and an acquired slot is one it did not hold |
| Servers.NeverAtMaximum | include/ewss.hpp:786-789 | a list that the overload test lets pass is below any positive maximum, also where the test overflows |
| Serving.OverloadedExactly | include/ewss.hpp:786-789 | overloaded is exactly more than nine tenths of the maximum, where nine times it fits into 64 bits |
| Servers.ActiveIsRight | include/ewss.hpp:1561-1563 | the active counter equals the list size exactly when the counters were reset with no connections in the list |
| Servers.BelowKept | include/ewss.hpp:786-789 | with fewer connections listed than at the reset the server counts as overloaded, whatever its maximum |
| Servers.Server.ResetStats | include/ewss.hpp:1091 | a reset makes the counters miss exactly the connections in the list |
| Servers.Server.AcceptConnection | include/ewss.hpp:1620-1655 | which of the limits rejects, and the list and counters after an admission |
| Servers.Server.Admit | include/ewss.hpp:1589-1601 | the outcome of an admission exactly, by the overload test on the counter and then the limits on the list; only an admission changes the list, by the new connection at its end |
| Servers.Server.FillSlots | include/ewss.hpp:1566-1573 | slot k + 1 holds connection k and the index stays within the 65 entries |
| Servers.IoOutcome | include/ewss.hpp:1657-1666 | serving moves the state only forward; a failed read, a failed write and a hang-up each lead from Open exactly to Closing and from any other state to Closed, so two of them close for good; a quiet slot changes nothing |
| Serving.ServedAsRun | include/ewss.hpp:1657-1666 | serving a slot is exactly the run of read, write and closes that its poll result asks for, each close exactly after a failure |
| Serving.OthersCalled | include/ewss.hpp:1316-1332 | every connection runs exactly the calls that others' callbacks address to it, in order |
| Serving.ServeAt | include/ewss.hpp:1603-1607 | the whole list after one slot |
| Serving.TurnServesEach | include/ewss.hpp:1603-1607 | without such calls a turn serves each polled connection with its own slot and leaves the rest alone |
| Servers.Server.ServeSlots | include/ewss.hpp:1603-1607 | every poll result is handled by the connection that filled its slot, in order and up to a fault, although an accept may append and callbacks may close others |
| Servers.Server.EnforceTimeouts | include/ewss.hpp:1610-1614 | the loop is the sweep over every position, in order |
| Servers.SweepOutcome | include/ewss.hpp:1610-1614 | the sweep closes every connection that was overdue and leaves none overdue, whatever callbacks close meanwhile |
| Servers.SweepSpares | include/ewss.hpp:1610-1614 | without such callbacks it changes no other connection |
| Timeouts.OverdueExactly | include/ewss.hpp:968-980 | over every run a connection is overdue exactly after more than 5000 ms in Handshaking since it was created, or in Closing since it began to close |
| Timeouts.TimesRemembered | include/ewss.hpp:1323-1345 | over every run the times compared are those of the creation and of the step that entered Closing |
| Serving.ExpiredAsStep | include/ewss.hpp:1612-1613 | the sweep closes an overdue connection by a close call |
| Serving.TickedAsStep | include/ewss.hpp:1610-1613 | the passing of time changes nothing but the clock of each connection |
| Servers.DropAtRemoves | include/ewss.hpp:1672-1675 | moving the last element into a place and popping removes exactly that element |
| Servers.Server.RemoveClosedConnections | include/ewss.hpp:1668-1683 | removal ends, keeps exactly the open connections, each as often as before, and counts the others |
| Servers.Server.Iterate | include/ewss.hpp:1565-1616 | a turn serves the listed and admitted connections in order, each slot by its own connection; then every connection overdue at that point is gone, exactly those still open after the sweep are kept, and the counters still account for the list; a fault ends the turn |
| Servers.Server.Run | include/ewss.hpp:1561-1618 | a run from any list accounts for its counters, which are right exactly if it started empty; then at most min(64, maximum) and 9/10 of the maximum plus one connections are listed and a positive maximum never rejects; once fewer are listed than at the start nobody is admitted again |
| Servers.ReachableLaws | include/ewss.hpp:1657-1666 | every connection of a server keeps the event order, the close callbacks, the hysteresis, the output and the delivery laws |

## Left out

- ParseFrames: where a masked, text or binary frame wraps around 2^64 the code unmasks memory past its array or hands it to the application; what follows depends on that memory and is not modelled. A loop that never ends is recorded as a value, since a method must end; the pong headers that a spinning ping pushes are in `SpinsForEver` and not in that value.
- Socket calls, `readv`, `writev`, `poll` and `accept`: only their results appear, as arbitrary values within what was offered.
- The `on_send` and `on_close` entries of the state tables (include/ewss.hpp:1136-1160 and 1177-1195): nothing calls them.
- Connections of a server are values updated in the list, so sharing of one connection object by several owners is not captured; calls that callbacks make on other connections are run after the event that made them.
- The steady clock shows one time within a turn of the reactor and does not go back, so that the conversion of an elapsed time to an unsigned number is exact; `last_activity_`, latency statistics and logging are not part of this model.
- `handshake_completed_`, `sec_websocket_key_` and `on_error`: written or declared and never used.
- `stop()`: a run is any finite list of turns. `set_max_connections` and `reset_stats()` called by a callback during a turn are not modelled; a reset between turns is `ResetStats`.
- `size_t` has 64 bits. On a 32-bit target the payload length is truncated and the size sum wraps at 2^32, which this model does not capture.
- Fragmentation, UTF-8 validation and close-code validation: the code has none.
- `expected`, `optional`, `FixedString`, `FixedFunction`, `function_ref`, `ScopeGuard`, TCP tuning, TLS configuration, `hex_digest` and the memory of pool slots: plumbing without a hard property.
