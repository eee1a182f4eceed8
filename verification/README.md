# A one-hop Tor circuit, verified

A Dafny model of the client end of a one-hop Tor circuit and of the code around it: the circuit
with its receive windows, the relay cipher, the receive loop, the dispatcher that matches arriving
cells with waiting requests, the SOCKS5 front end, the two-way pump, and the codecs. The circuit
follows tor-spec (sections 0.3, 5.2.1, 6.1, 6.2, 7.3, 7.4), the front end RFC 1928, the codecs RFC 4648.

How the model is built:

- Objects that the program updates in place are classes (`Circuit`, `CellEncrypter`, `Cell`,
  `RelayCellDispatcher`, `Connection`, `CellConsumer`, `SocksConnection`, `ProxyShuffler`). Each
  method is proved equal to one step of a pure state machine, and the results about runs are about
  that machine. `Client.Step` is the circuit's; `Circuits.Circuit` refines it byte for byte.
- SHA-1 and the AES block function are uninterpreted functions. The counter mode around AES (iv, ec,
  num) is written out, because the position it carries from cell to cell is what the two ends must
  agree on.
- A direction of the cipher is a `Half`: key, bytes absorbed by the running digest, keystream
  position. The relay is the mirrored pair of halves.
- `TwoParty` joins the client to an exit relay with one byte link in each direction. The exit is not
  code of the repository: it does what tor-spec asks of it. `Streams` adds the order of section 6.2.
- Results about runs of the dispatcher and the client that assume the process has not aborted on its
  assertion hold without that assumption when streams are used in order (`Connecting.Orderly`):
  `Connecting.AssertionNeverFails`, `ClientDelivery.OrderlyRun`, `Streams.ConnectOutcomes`.
- Calls of handlers are events in a log. They run after the dispatcher method that made them has
  returned. (The code calls them before it erases the front of the queue; a handler that calls back
  into the dispatcher for the same stream from there is outside the model.)

Where code and promise differ the model follows the code, and the difference is stated exactly:

- END cells count against the receive windows (`protocol/CellConsumer.cpp:80-81`), which tor-spec
  does not ask for. The exit's credit exceeds the window by exactly the END cells counted
  (`TwoParty.OvershootIsEndCells`); `Overshoot.OvershootHappens` is the run.
- Connect handlers are not erased after they fire, so a connect request can be answered more than
  once: `Connecting.ConnectAnsweredTwice` gives the inputs, `Connecting.AnsweredOnceExactlyWhen` the
  exact condition, `Connecting.AnswersExactly` all answers and all refusals.
- A second CONNECTED can be handed to a reader as data: `Connecting.ConnectedReachesReader` is the
  input, `Connecting.ReadersGetConnected` says exactly which ones are.
- A SOCKS domain may hold a zero byte, and the address string of BEGIN ends at its first zero:
  `Tunnel.ZeroInDomain` is the input, `Tunnel.ReadsBackExactlyWhen` the exact condition.
- A stream id that was never opened has window 0, which wraps: `Windows.UnopenedStreamWraps`.
- The expansion stores its block number in one byte: `CellEncryption.ExpansionIsHashBlocks` up to
  256 blocks, `CellEncryption.ExpansionRepeats` beyond.
- A write of length 0 sends nothing and never calls its handler: `ClientRuns.WriteAttachesHandlerOnce`.

One file holds one module; the main results come first in each group of the table.

## Model

| member | source | states |
|---|---|---|
| `TwoParty.CreditConservation` | protocol/Circuit.cpp:179-215 | in every run of the client against an exit that follows sections 7.3 and 7.4 of tor-spec, exit package window + DATA in flight + 100 x circuit SENDMEs in flight = circuitWindow + END cells counted, with circuitWindow in 901..1000; the same with 50 and 451..500 for every opened stream; and both links carry exactly the sealed form of the cells not yet read |
| `TwoParty.QuiescentExitHasCredit` | protocol/Circuit.cpp:192-204 | transfer cannot stall: with no DATA and no SENDME under way the exit may send at least 901 more cells on the circuit and 451 on each opened stream |
| `TwoParty.OvershootIsEndCells` | protocol/CellConsumer.cpp:79-81 | END cells are counted although the exit does not charge for them: in every run the balance of the exit exceeds the client's window by exactly the number of END cells counted, so the two agree if and only if there are none; for the circuit and for every opened stream |
| `Overshoot.OvershootHappens` | protocol/CellConsumer.cpp:79-81 | the input: for every n below 2^16 a run in which one END on each of n streams has come through, nothing is on its way, and the exit may send n cells more than the window says, hence more than 1000 from n = 100 on |
| `Streams.ConnectOutcomes` | protocol/RelayCellDispatcher.cpp:15-72 | against an exit whose first cell on each stream is CONNECTED or END, in every run and for every stream: the assertion in the dispatcher never fails; the first outcome of connect is success exactly when the exit said CONNECTED first; it is reported once requested and once that first cell is off the link; all outcomes and refusals are as stated for the dispatcher; no DATA or END cell is lost |
| `Streams.SoundKept` | protocol/RelayCellDispatcher.cpp:5-72 | every move keeps the client's dispatcher calls orderly and the first cell of each stream either on the link or first in what the dispatcher got |
| `TwoParty.InvariantKept` | protocol/Circuit.cpp:136-269 | every client call, arrival, exit read and exit send keeps the link invariant and all credit equations |
| `TwoParty.LinksKept` | protocol/Circuit.cpp:141-142 | in each direction the two cipher states differ by exactly the cells on the link |
| `TwoParty.ArriveSealed` | protocol/CellConsumer.cpp:52-83 | a relay cell sealed by the exit with the mirrored state is accepted by an open client as the very cell that was sealed |
| `ClientRuns.PeerReadsEveryRun` | protocol/Circuit.cpp:141-264 | for every interleaving of connect, write, read, close and arriving cells, the mirrored peer verifies every cell on the wire and reads exactly the cells built, in order, digest field zero |
| `ClientRuns.WireIsSealedLog` | protocol/Circuit.cpp:210-264 | the wire is the log of all cells built, sealed one after the other by the one forward state, which has absorbed them all |
| `ClientRuns.PeerReceivesWhatWasWritten` | protocol/Circuit.cpp:250-265 | end to end: what the peer decrypts for a stream, cut by the length field, is the concatenation of the buffers written to it, whatever else was sent between |
| `Script.PeerReadsScript` | protocol/Circuit.cpp:136-265 | over every run the mirrored peer reads, SENDME cells apart, exactly what the operations ask for, in their order: a BEGIN with address and NUL for each connect, the pieces of each write, an END with reason 6 for each closed stream, each on its own stream of this circuit, with the handler that was named waiting for its write; and a SENDME carries nothing |
| `Script.PeerReadsBegin` | protocol/Circuit.cpp:136-145 | after a connect the last cell on the wire opens as BEGIN on that stream, its data the address and a zero, with the connect handler waiting for its write |
| `Script.BuiltAsAsked` | protocol/Circuit.cpp:136-265 | one operation builds the cells it asks for and nothing but SENDME besides |
| `Readers.ReadersGetWhatWasAccepted` | protocol/RelayCellDispatcher.cpp:44-72 | the receiving counterpart: over every run that uses its streams in order, the bytes accepted for a stream are those of refused cells, then those that the read handlers have taken, then those still queued, and each is handed over as accepted; with nothing refused or queued the readers have got exactly the accepted bytes |
| `Readers.ReadersGetWhatWasSent` | protocol/CellConsumer.cpp:75-89 | the same from the other end: what the relay sealed for a stream is what its readers take, refused cells before and queued cells behind |
| `Readers.HandedAsAccepted` | protocol/RelayCell.h:85-91 | over every run what the dispatcher is handed for a stream is, cell by cell, bytes 14 to 511 of the accepted cell with the number in bytes 12 and 13, or -1 for END and for no other |
| `Readers.HandlersOfRun` | protocol/RelayCellDispatcher.cpp:15-72 | over every client run the handlers called are those that the requests of the application, in its own order and with its own handlers, and the arriving cells lead to |
| `Readers.RequestsAreTheApplications` | protocol/Circuit.cpp:147-159 | the dispatcher gets one connect request for each BEGIN that was written and one read request for each read, with stream and handler |
| `Reports.ReportedExactly` | protocol/Circuit.cpp:147-169 | over every run: a BEGIN that could not be written is reported to its connect handler, a read error and a DESTROY cell to the error listener unless the circuit has been closed, nothing else is, in order; and the circuit is closed exactly when asked |
| `Reports.ClosedTakesNothing` | protocol/CellConsumer.cpp:52-55 | once closed, nothing more is taken from the link, accepted or counted, whatever arrives |
| `ClientRuns.SegmentsPartition` | protocol/Circuit.cpp:256-260 | a write of n bytes is cut into ceil(n/498) pieces of 1 to 498 bytes that concatenate to the buffer; none for n = 0 |
| `ClientRuns.WriteAttachesHandlerOnce` | protocol/Circuit.cpp:263-263 | a write puts ceil(n/498) cells on the wire and attaches the caller's handler to the last of them only, hence to none for an empty buffer |
| `ClientRuns.StreamDataOfRun` | protocol/Circuit.cpp:250-265 | the DATA cells built for one stream in any run carry exactly what was written to it; no other kind of cell the circuit builds adds to it |
| `ClientDelivery.ReceiveSideOfRun` | protocol/CellEncrypter.cpp:147-174 | in every reachable state the receiving keystream has moved 509 bytes per relay cell taken, the receiving digest has absorbed all their digest-zeroed plaintexts whether or not they verified, and exactly the verified ones have been handed on |
| `ClientDelivery.TamperedRun` | protocol/CellConsumer.cpp:75-89 | whatever the client does meanwhile, cells changed in transit only inside digest bytes are rejected, and exactly the unchanged ones are handed on |
| `ClientDelivery.OrderlyRun` | protocol/Circuit.cpp:136-269 | a client run that uses every stream in order never fails the assertion, answers connect as stated for the dispatcher, loses no verified DATA or END cell, and gets through exactly what was written |
| `ClientDelivery.BytesToCells` | protocol/CellConsumer.cpp:44-89 | from bytes to cells: the exit's sealed cells as a byte stream, cut anywhere and read in any pieces with any suspensions, are accepted as the cells that the exit sealed, in order and without loss |
| `ClientDelivery.DispatcherOfRun` | protocol/CellConsumer.cpp:79-82 | the dispatcher inside any client run, aborted or not, is a dispatcher run of its own |
| `ClientDelivery.ArrivedAreAccepted` | protocol/Circuit.cpp:179-182 | what reaches the dispatcher as data on a stream is what was accepted from the link for it, in order and distinctly numbered |
| `ClientDelivery.EveryCellHasOneFate` | protocol/RelayCellDispatcher.cpp:5-72 | over every client run each verified DATA or END cell of a stream has exactly one fate (read, refused, queued, dropped by a second connect of the id), and those read and queued are in arrival order |
| `ClientDelivery.KeyedCircuit` | protocol/CellEncrypter.cpp:91-109 | from the handshake on: a relay with the same key material receives exactly what was written to each stream and all its own cells are accepted |
| `Windows.CircuitWindowRange` | protocol/Circuit.cpp:192-196 | over every run, whatever arrives, the circuit window stays in 901..1000 |
| `Windows.CircuitWindowLaw` | protocol/Circuit.cpp:192-196 | over every run with no counted cell on stream 0: after n counted cells the circuit window w satisfies n = 100 x circuit SENDMEs built + (1000 - w) |
| `Windows.StreamWindowLaw` | protocol/Circuit.cpp:198-203 | after n counted cells of an opened stream its window w is in 451..500 and n = 50 x SENDMEs built + (500 - w), over every run |
| `Windows.LawsAreQuotientAndRemainder` | protocol/Circuit.cpp:192-203 | the two laws hold if and only if the window is 1000 - n mod 100 (500 - n mod 50) and the SENDME count n div 100 (n div 50) |
| `Windows.UnopenedStreamWraps` | protocol/Circuit.cpp:198-200 | for an id never opened the window starts at 0 and wraps: n cells leave it at -n mod 2^32 and give no credit for fewer than 2^32 - 450 of them |
| `Windows.SendMesBuilt` | protocol/Circuit.cpp:192-215 | SENDME cells are built only for counted cells |
| `Windows.StreamWindowAfter` | protocol/Circuit.cpp:192-240 | a stream window moves exactly when the stream is opened or one of its cells is counted |
| `RelayCrypto.PeerReadsBack` | protocol/CellEncrypter.cpp:128-174 | opening a sealed log with the mirrored state verifies every cell, gives back every cell, and passes through the same states |
| `RelayCrypto.SealedAt` | protocol/CellEncrypter.cpp:140-169 | cell k of a log in closed form: digest of the seed and the first k+1 payloads, keystream from byte 509 k on, first three bytes untouched |
| `RelayCrypto.WireIsOneShot` | protocol/CellEncrypter.cpp:111-126 | the payloads of a whole log on the wire are one counter-mode encryption of the stamped payloads, although 509 is not a multiple of 16 |
| `RelayCrypto.WireBits` | protocol/CellEncrypter.cpp:122-122 | bit by bit: a payload byte on the wire differs from the stamped plaintext exactly where byte pos + p of AES in counter mode has a one |
| `Bytes.XorIsBitwise` | protocol/CellEncrypter.cpp:122-122 | a bit of the exclusive or is set exactly where the operands differ |
| `Bytes.BitsDetermine` | protocol/CellEncrypter.cpp:122-122 | the eight bits determine a byte, so that fixes the operation |
| `RelayCrypto.OpenSeal` | protocol/CellEncrypter.cpp:162-174 | decryption with the mirrored state inverts encryption and verifies |
| `RelayCrypto.SealAllAppend` | protocol/CellEncrypter.cpp:162-169 | sealing is stateful only through key, absorbed bytes and position: a log splits at any point |
| `RelayCrypto.ReceivePosition` | protocol/CellEncrypter.cpp:147-160 | after any k+1 cells, genuine or not, the receiving state is that of k+1 absorbed plaintexts |
| `RelayCrypto.OpenAllAppend` | protocol/CellEncrypter.cpp:171-174 | receiving a log in two parts is receiving it in one |
| `RelayCrypto.DigestTamper` | protocol/CellEncrypter.cpp:147-160 | a change confined to the digest bytes leaves plaintext and state as sent and is noticed, always |
| `RelayCrypto.DigestTamperIsLocal` | protocol/CellEncrypter.cpp:147-174 | over a whole log, such changes reject exactly the changed cells and no later one |
| `CounterMode.CarryingRefinesOneShot` | protocol/CellEncrypter.cpp:111-126 | carrying the position from payload to payload equals one encryption of their concatenation with the stream whose byte p is AES(key, p/16)[p mod 16] |
| `CounterMode.KeystreamSplit` | protocol/CellEncrypter.cpp:111-126 | the stream may be cut at any byte |
| `CounterMode.Ctr128Encrypt` | protocol/CellEncrypter.cpp:122-122 | the byte loop over iv, ec and num produces that stream from position p and ends describing position p + len |
| `CounterMode.NextByte` | protocol/CellEncrypter.cpp:122-122 | one turn of that loop gives byte p of the stream and moves to p + 1 |
| `CounterMode.NextBlock` | protocol/CellEncrypter.cpp:122-122 | a refill encrypts the counter block and leaves the next counter in iv |
| `CounterMode.IncrementBlock` | protocol/CellEncrypter.cpp:122-122 | the carry loop adds one to the big-endian counter |
| `CounterMode.IncrementCounts` | protocol/CellEncrypter.cpp:122-122 | adding one digit-wise is adding one to the number, modulo 256^n |
| `Bytes.BigEndianValue` | protocol/CellEncrypter.cpp:44-48 | the counter block is the number of the block, most significant byte first |
| `CounterMode.ZeroCounter` | protocol/CellEncrypter.cpp:44-48 | the zeroed iv is counter 0 |
| `CellEncryption.ExpansionIsHashBlocks` | protocol/CellEncrypter.cpp:54-83 | for every length up to 256 blocks the expansion is a prefix of SHA1(K|0), SHA1(K|1), ... |
| `CellEncryption.ExpansionRepeats` | protocol/CellEncrypter.cpp:69-69 | past 5120 bytes the one-byte block number wraps and the expansion starts over |
| `CellEncryption.KeyMaterialPartition` | protocol/CellEncrypter.cpp:85-97 | check value, two digest seeds and two keys cover the 92 bytes without gap or overlap |
| `CellEncryption.CellEncrypter.ExpandKeyMaterial` | protocol/CellEncrypter.cpp:54-83 | the pointer loop fills the buffer with the expansion, partial last block included |
| `CellEncryption.CellEncrypter.SetKeyMaterial` | protocol/CellEncrypter.cpp:85-109 | succeeds exactly when the check value matches, then seeds both directions; a mismatch changes nothing |
| `CellEncryption.CellEncrypter.constructor` | protocol/CellEncrypter.cpp:44-52 | both directions start at position 0 with nothing absorbed |
| `CellEncryption.CellEncrypter.AesOperate` | protocol/CellEncrypter.cpp:111-126 | encrypts the 509 payload bytes in place from position p and leaves the header |
| `CellEncryption.CellEncrypter.ReplacePayload` | protocol/CellEncrypter.cpp:125-125 | the payload is replaced and the header kept |
| `CellEncryption.CellEncrypter.CalculateDigest` | protocol/CellEncrypter.cpp:128-138 | the running digest absorbs the payload and a copy is finished |
| `CellEncryption.CellEncrypter.SetDigestForCell` | protocol/CellEncrypter.cpp:140-145 | the digest over everything sent so far goes into the cell |
| `CellEncryption.CellEncrypter.VerifyDigestForCell` | protocol/CellEncrypter.cpp:147-160 | compares with the digest field cleared, which stays cleared, and absorbs in any case |
| `CellEncryption.CellEncrypter.Encrypt` | protocol/CellEncrypter.cpp:162-169 | is the pure Seal on the forward state; the other direction is untouched |
| `CellEncryption.CellEncrypter.Decrypt` | protocol/CellEncrypter.cpp:171-174 | is the pure Open on the back state; the other direction is untouched |
| `DispatcherFates.OneFateInOrder` | protocol/RelayCellDispatcher.cpp:5-72 | arrived = read + queued + refused + dropped as multisets, and read followed by queued is a subsequence of what arrived |
| `DispatcherFates.FreshStreamDropsNothing` | protocol/RelayCellDispatcher.cpp:5-7 | a stream whose id is added only before anything arrived loses nothing |
| `Connecting.AnswersExactly` | protocol/RelayCellDispatcher.cpp:15-57 | over every orderly run, without assuming that nothing aborts: a connect request made before the first cell is answered by every CONNECTED cell and by every DATA or END cell before the first read, in order, success for CONNECTED and refusal otherwise; a later one by the first cell alone; and the refused cells are exactly the DATA and END cells among these answers |
| `Connecting.AnsweredOnceExactlyWhen` | protocol/RelayCellDispatcher.cpp:15-57 | a request is answered once if and only if it came behind a cell or exactly one cell has come that is CONNECTED or precedes the first read; more than once if and only if it came first and a second such cell followed |
| `Connecting.ConnectAnsweredTwice` | protocol/RelayCellDispatcher.cpp:15-57 | the inputs: after a request and CONNECTED, a DATA or END cell gives a refusal and a second CONNECTED a second success |
| `Connecting.RefusedExactlyWhen` | protocol/RelayCellDispatcher.cpp:24-57 | a step refuses a cell if and only if the cell arrives behind a request that came first with no read asked for, or the request finds END in front of the queue |
| `Connecting.RaceIndependence` | protocol/RelayCellDispatcher.cpp:15-57 | for every order of one connect request and the arrivals, the first outcome is success exactly when CONNECTED came before END, and none is reported before both have happened |
| `Connecting.AssertionNeverFails` | protocol/RelayCellDispatcher.cpp:32-32 | in every run that is orderly on all streams the assertion on the queue front never fails |
| `Connecting.OrderlyLosesNothing` | protocol/RelayCellDispatcher.cpp:5-72 | in such a run every DATA or END cell has been read, refused or is queued, and none was dropped |
| `Connecting.ReadersGetTheRest` | protocol/RelayCellDispatcher.cpp:44-72 | on an orderly stream the DATA and END cells that arrived are, in this order, those refused, those handed to readers, those still queued |
| `Connecting.ReadersGetConnected` | protocol/RelayCellDispatcher.cpp:15-72 | readers get a CONNECTED cell only when connect was requested late, and then exactly those behind the first cell, as far as not still queued |
| `Connecting.ConnectedReachesReader` | protocol/RelayCellDispatcher.cpp:15-72 | the input: two CONNECTED cells, then the request, then a read |
| `Handlers.RightHandlersCalled` | protocol/RelayCellDispatcher.cpp:15-72 | over every run the calls are exactly these, in order: a queued cell answers the very request that finds it; an arriving cell goes to the handler of the latest read request that found nothing queued, else to that of the latest such connect request, else to nobody |
| `DispatcherFates.ViewOkHolds` | protocol/RelayCellDispatcher.cpp:15-72 | in every run a waiting connect handler means an empty queue and a waiting read handler means no DATA or END cell queued |
| `DispatcherFates.StepIsLocal` | protocol/RelayCellDispatcher.cpp:5-72 | operations on one stream do not affect another |
| `Dispatcher.RelayCellDispatcher.constructor` | protocol/RelayCellDispatcher.cpp:5-72 | the three maps start empty |
| `Dispatcher.RelayCellDispatcher.AddStreamId` | protocol/RelayCellDispatcher.cpp:5-7 | replaces the queue by an empty one |
| `Dispatcher.RelayCellDispatcher.PushBack` | protocol/RelayCellDispatcher.cpp:21-21 | appends to the queue, creating it if missing |
| `Dispatcher.RelayCellDispatcher.DispatchConnectedCell` | protocol/RelayCellDispatcher.cpp:15-22 | calls the waiting connect handler, which stays, or queues |
| `Dispatcher.RelayCellDispatcher.DispatchConnectedCellRequest` | protocol/RelayCellDispatcher.cpp:24-42 | answers from the queue front (success, refusal, or a failed assertion) or waits |
| `Dispatcher.RelayCellDispatcher.DispatchDataCell` | protocol/RelayCellDispatcher.cpp:44-57 | calls the read handler, else the connect handler with a refusal, else queues |
| `Dispatcher.RelayCellDispatcher.DispatchDataCellRequest` | protocol/RelayCellDispatcher.cpp:59-72 | answers from the queue front or becomes the standing read handler |
| `Circuits.Circuit.constructor` | protocol/Circuit.cpp:54-66 | a fresh circuit is the start state |
| `Circuits.Circuit.ReadCreatedCellComplete` | protocol/Circuit.cpp:106-134 | succeeds exactly on a valid answer whose check value matches, then both directions hold the expanded keys and seeds; otherwise nothing changes |
| `Circuits.Circuit.EncryptAndWrite` | protocol/Circuit.cpp:141-142 | one cell is sealed and appended to the wire with its completion |
| `Circuits.Circuit.SendBeginCell` | protocol/Circuit.cpp:136-145 | builds, seals and writes the BEGIN cell |
| `Circuits.Circuit.Connect` | protocol/Circuit.cpp:236-240 | refines the connect step: queue, window 500, BEGIN |
| `Circuits.Circuit.SendBeginCellComplete` | protocol/Circuit.cpp:147-159 | reports a write error or asks the dispatcher |
| `Circuits.Circuit.SendDataCell` | protocol/Circuit.cpp:257-263 | one piece becomes one DATA cell |
| `Circuits.Circuit.Write` | protocol/Circuit.cpp:250-265 | the loop refines the write step: all pieces in order, handler on the last |
| `Circuits.SegmentAt` | protocol/Circuit.cpp:256-260 | piece k starts at byte 498 k, and the remaining length is at most 498 exactly for the last piece |
| `Circuits.Circuit.Read` | protocol/Circuit.cpp:267-269 | refines the read step |
| `Circuits.Circuit.CloseStream` | protocol/Circuit.cpp:225-232 | refines the END step |
| `Circuits.Circuit.Close` | protocol/Circuit.cpp:221-223 | refines the closing step |
| `Circuits.Circuit.SendWindowUpdate` | protocol/Circuit.cpp:210-215 | builds, seals and writes a SENDME cell |
| `Circuits.Circuit.DecrementCircuitWindow` | protocol/Circuit.cpp:193-196 | 32-bit decrement, SENDME and +100 at 900 |
| `Circuits.Circuit.DecrementStreamWindow` | protocol/Circuit.cpp:198-203 | a missing entry is 0; 32-bit decrement, SENDME and reset to 500 at 450 |
| `Circuits.Circuit.DecrementWindows` | protocol/Circuit.cpp:192-204 | both, the circuit's SENDME first |
| `Circuits.Circuit.HandleDataCell` | protocol/Circuit.cpp:179-182 | counts, then dispatches |
| `Circuits.Circuit.DecryptRelayCell` | protocol/CellConsumer.cpp:77-77 | the receiving state moves on whether or not the cell verifies |
| `Circuits.Circuit.HandleRelayCell` | protocol/CellConsumer.cpp:75-89 | refines the arrival of a relay cell, for all relay types and for a bad digest |
| `Circuits.Circuit.ReadCellComplete` | protocol/CellConsumer.cpp:52-72 | refines the arrival of any cell |
| `Circuits.Circuit.ReadCellFailed` | protocol/CellConsumer.cpp:54-60 | refines a read error |
| `Circuits.StepOfRelayCell` | protocol/CellConsumer.cpp:75-89 | what the abstract arrival of a relay cell comes to, case by case |
| `Circuits.DecrementTwice` | protocol/Circuit.cpp:192-204 | counting the circuit and then the stream is counting both and sending the two SENDMEs in that order |
| `Cells.RelayImageFields` | protocol/RelayCell.h:23-107 | every accessor reads back what the constructor was given; the digest field is zero |
| `Cells.RelayLayout` | protocol/RelayCell.h:23-51 | every field of a relay cell at its place, byte by byte: circuit id, 3, command, recognized, stream, digest, length, data, zeros |
| `Cells.AccessorsRead` | protocol/RelayCell.h:77-107 | the accessors read those places in any cell; the length is -1 exactly for END |
| `Cells.Cell.Blank` | protocol/Cell.cpp:42-44 | the cursor starts behind the header |
| `Cells.Cell.Typed` | protocol/Cell.cpp:34-40 | zeroed buffer, id and type |
| `Cells.Cell.Relay` | protocol/RelayCell.h:42-51 | fills the 512 bytes with the relay cell image of its arguments |
| `Cells.Cell.RelayString` | protocol/RelayCell.h:54-63 | the same for a string, with its terminating zero counted in the length |
| `Cells.Cell.RelayByte` | protocol/RelayCell.h:65-70 | the same for one byte |
| `Cells.Cell.Copy` | protocol/RelayCell.h:72-75 | copies the buffer |
| `Cells.Cell.AppendData` | protocol/RelayCell.h:23-30 | the eleven header bytes, length modulo 2^16 |
| `Cells.Cell.AppendByte` | protocol/Cell.cpp:60-62 | appends at the cursor and changes nothing else |
| `Cells.Cell.AppendShort` | protocol/Cell.cpp:50-53 | two bytes, big-endian |
| `Cells.Cell.AppendInt` | protocol/Cell.cpp:55-58 | four bytes, big-endian |
| `Cells.Cell.AppendSegment` | protocol/Cell.cpp:64-73 | a segment |
| `Cells.Cell.FillRelay` | protocol/RelayCell.h:42-51 | what the relay constructors have in common |
| `Cells.Cell.SetDigest` | protocol/RelayCell.h:77-79 | overwrites the four digest bytes |
| `Bytes.BE16RoundTrip` | util/Util.cpp:72-103 | more significant byte first, and the 16-bit conversions invert each other |
| `ReceiveLoop.FramingIndependentOfFragmentation` | protocol/Connection.cpp:83-126 | for every way the stream is split into partial reads, suspensions and errors, the k-th cell handled is bytes 512 k to 512 (k + 1); every read but a suspended one has led to exactly one post; while open every post but a queued one has led to one call of the listener; and exactly one of three holds: a read is suspended, a post is queued, the loop ended with an error |
| `ReceiveLoop.SilentAfterClose` | protocol/CellConsumer.cpp:40-60 | after close the listener is never called again |
| `ReceiveLoop.LossIsReported` | protocol/Connection.cpp:95-98 | a connection lost while a read is suspended reaches the listener as one error when the posted handler runs, and nothing is handled for it |
| `ReceiveLoop.FatalIsReported` | protocol/Connection.cpp:119-121 | so does a fatal answer of SSL_read |
| `ReceiveLoop.SilentAfterError` | protocol/CellConsumer.cpp:57-60 | after that nothing more is handled or reported |
| `ReceiveLoop.FramedStep` | protocol/CellConsumer.cpp:44-72 | every arrival, resumption, posted handler and close keeps the framing invariant |
| `ReceiveLoop.DrainCompletes` | protocol/Connection.cpp:101-125 | with enough bytes there, any fragmentation into nonempty pieces completes the read |
| `ReceiveLoop.DrainFacts` | protocol/Connection.cpp:101-125 | an activation completes exactly when it got all it wanted, and fails only on a fatal answer |
| `ReceiveLoop.Connection.constructor` | protocol/Connection.cpp:83-88 | nothing read, nothing posted |
| `ReceiveLoop.Connection.ReadAvailable` | protocol/Connection.cpp:101-123 | the loop takes the number of bytes that the schedule allows and puts them, in order, where they belong |
| `ReceiveLoop.Connection.ReadFully` | protocol/Connection.cpp:90-126 | posts the handler once or suspends with the rest of the buffer captured |
| `ReceiveLoop.Connection.StoreRead` | protocol/Connection.cpp:102-111 | SSL_read hands out the next bytes |
| `ReceiveLoop.Connection.ReadCell` | protocol/Connection.cpp:83-88 | starts a read of 512 bytes |
| `ReceiveLoop.CellConsumer.constructor` | protocol/CellConsumer.cpp:34-38 | the idle state |
| `ReceiveLoop.CellConsumer.Close` | protocol/CellConsumer.cpp:40-42 | sets the flag |
| `ReceiveLoop.CellConsumer.Consume` | protocol/CellConsumer.cpp:44-50 | refines the start of a read; nothing when closed |
| `ReceiveLoop.CellConsumer.Resume` | protocol/Connection.cpp:113-116 | refines the continuation of a suspended read in the buffer it captured |
| `ReceiveLoop.CellConsumer.ReadCellComplete` | protocol/CellConsumer.cpp:52-72 | refines the posted handler: silent when closed, one report on an error, otherwise the cell and the next read |
| `Base64.DecodeInvertsEncode` | util/Util.cpp:163-230 | decoding inverts the RFC 4648 section 4 encoding of every byte string, with or without padding, under any insertion of accepted white space |
| `Base64.DecodedExactlyWhen` | util/Util.cpp:163-230 | with k alphabet characters before '=' or the end, decoding succeeds exactly when no illegal character comes before and k mod 4 is not 1; it then gives floor(3k/4) bytes |
| `Base64.Base64Decode` | util/Util.cpp:163-230 | the loop returns -1 exactly when the length guard fails or the text does not decode, otherwise writes exactly the decoded bytes; never at or past destlen |
| `Base64.AppendValue` | util/Util.cpp:193-205 | six more bits; three bytes out at 24 |
| `Base64.FinishDecode` | util/Util.cpp:208-229 | the leftover bits |
| `Base64.WriteTail` | util/Util.cpp:216-225 | writes the one or two bytes of an unfinished group |
| `Base64.UnpackPack` | util/Util.cpp:193-226 | regrouping 8-bit to 6-bit and back is the identity |
| `Base64.TableIsRfc4648` | util/Util.cpp:53-70 | the table maps exactly the characters of the RFC 4648 alphabet to their positions, five characters to white space, and = to padding |
| `Base64.PackedBits` | util/Util.cpp:193-226 | a group of bytes and its letters are the same number, and groups follow one another |
| `Base64.SextetsIgnoreSpace` | util/Util.cpp:187-189 | accepted white space has no effect |
| `Base64.EncodeHasNoSpace` | util/Util.cpp:53-70 | no letter of an encoding is white space to the table |
| `Identity.IdentityOfToken` | protocol/ServerListing.cpp:104-120 | for every byte string, the unpadded (or padded) token decodes to it, and the base16 form is twice as long and decodes to it |
| `Identity.GetBase16EncodedIdentity` | protocol/ServerListing.cpp:104-120 | returns the upper-case base16 of the decoded token, NUL-terminated, in a buffer of exactly that size, and fails exactly when the token does not decode |
| `Identity.Base16Encode` | util/Util.cpp:146-161 | writes the encoding and a NUL and nothing behind them |
| `Identity.HexRoundTrip` | util/Util.cpp:146-161 | the encoding loses nothing |
| `Identity.HexAt` | util/Util.cpp:155-156 | digits of 0123456789ABCDEF, the upper half of each byte first |
| `Identity.UnHexInverts` | util/Util.cpp:153-160 | only upper-case encodings decode |
| `Tokenizer.TokensAreTheRuns` | util/Util.cpp:233-248 | the tokens are exactly the maximal delimiter-free nonempty runs, each once, in order, for any string and delimiters |
| `Tokenizer.TokenizeString` | util/Util.cpp:233-248 | the loop over find positions ends, returns these tokens, and its trailing push is dead |
| `Tokenizer.RunsAreMaximal` | util/Util.cpp:237-244 | each is a maximal run |
| `Tokenizer.RunsAreComplete` | util/Util.cpp:237-244 | each maximal run is found |
| `Tokenizer.RunsInOrder` | util/Util.cpp:237-244 | they come left to right and do not touch |
| `Tokenizer.Find` | util/Util.cpp:237-238 | find_first_of and find_first_not_of, with npos |
| `Hybrid.HybridRoundTrip` | protocol/HybridEncryption.cpp:48-109 | a receiver that picks the branch by length recovers every plaintext, RSA assumed invertible, whenever a branch is usable |
| `Hybrid.ChunkArithmetic` | protocol/HybridEncryption.cpp:63-108 | a message is single exactly when shorter than modulus - 42; both branches give RSA at most modulus - 42 bytes, the message or the key with the first part behind it; the length is the modulus exactly in the single branch and |m| + 58 in the other |
| `Hybrid.Encrypt` | protocol/HybridEncryption.cpp:100-109 | produces that ciphertext in either branch |
| `Hybrid.EncryptInHybridChunk` | protocol/HybridEncryption.cpp:63-88 | envelope of key and first chunk, rest in counter mode |
| `Hybrid.EncryptInSingleChunk` | protocol/HybridEncryption.cpp:90-98 | RSA of the whole message |
| `Hybrid.AesEncrypt` | protocol/HybridEncryption.cpp:48-61 | counter mode from zero |
| `Socks.ParserInvertsClient` | SocksConnection.cpp:38-214 | for every greeting offering method 0 and every CONNECT with an IPv4 or 0..255-byte domain address, the handler is called exactly once and exactly these bytes are taken; the host is the client's name byte for byte, or reads, cut at its dots, as the client's four bytes in order; the port is the client's |
| `Socks.DottedReadsBack` | SocksConnection.cpp:209-210 | a dotted host cut at its dots gives the four bytes back, in order |
| `Socks.DeniedExactlyWhen` | SocksConnection.cpp:46-147 | for any client bytes: denied exactly for another version, no method 0, another command than CONNECT or another address type than IPv4 and domain; the assertions fail exactly on another version or a nonzero reserved byte in the request |
| `Socks.FailureIsReported` | SocksConnection.cpp:50-53 | a socket failure at any stage is reported as a failure, by one call, whatever completes before and after |
| `Socks.AcceptedOnlyIfFed` | SocksConnection.cpp:149-214 | with failures at any stage, a request is accepted only if the bytes read are such a request |
| `Socks.OnlyRequestsAreAccepted` | SocksConnection.cpp:38-214 | nothing else is accepted: an accepted stream begins with the encoding of the request reported |
| `Socks.CalledAtMostOnce` | SocksConnection.cpp:38-214 | for any client bytes and a socket that works, the handler is called once if the chain finishes and not before |
| `Socks.CalledOnceWhenDone` | SocksConnection.cpp:38-214 | for any sequence of completions, failures at any stage included, the handler has been called exactly once if the chain is done and not at all otherwise, and nothing follows |
| `Socks.FeedCompletes` | SocksConnection.cpp:38-214 | a run on a socket that works is one such sequence |
| `Socks.SocksConnection.constructor` | SocksConnection.cpp:38-44 | nothing asked for yet, a 512-byte buffer |
| `Socks.SocksConnection.GetRequest` | SocksConnection.cpp:38-44 | asks for the two version bytes |
| `Socks.SocksConnection.CallHandler` | SocksConnection.cpp:67-67 | one call ends the chain |
| `Socks.SocksConnection.ReadComplete` | SocksConnection.cpp:46-214 | whichever read is pending, its bytes go to the buffer and the bound handler refines the abstract transition |
| `Socks.SocksConnection.Failed` | SocksConnection.cpp:50-53 | an error at any stage is reported once |
| `Socks.SocksConnection.ReadVersionHeaderComplete` | SocksConnection.cpp:46-72 | version check and method count |
| `Socks.SocksConnection.ReadMethodComplete` | SocksConnection.cpp:74-94 | the loop accepts exactly when method 0 is offered |
| `Socks.SocksConnection.SendValidMethodResponse` | SocksConnection.cpp:96-103 | answers 05 00 |
| `Socks.SocksConnection.MethodResponseComplete` | SocksConnection.cpp:105-120 | goes on to the request |
| `Socks.SocksConnection.ReadRequestComplete` | SocksConnection.cpp:123-147 | assertions, command, address type |
| `Socks.SocksConnection.ReadDomainAddressHeaderComplete` | SocksConnection.cpp:166-182 | length byte |
| `Socks.SocksConnection.ReadDomainAddressComplete` | SocksConnection.cpp:149-164 | name and port |
| `Socks.SocksConnection.ReadIPv4AddressComplete` | SocksConnection.cpp:198-214 | dotted address and port |
| `Tunnel.SocksToBegin` | TorTunnel.cpp:70-79 | for every accepted request, whatever the client sent, the BEGIN payload is at most 262 bytes with a matching length field and holds the client's port and a host that says the client's address; the exit, which reads up to the first zero and cuts at the last colon, reads that host and port if and only if the host has no zero byte, which holds for every IPv4 request |
| `Tunnel.RequestReachesExit` | protocol/Circuit.cpp:136-145 | from the SOCKS bytes to the wire: after any run of the client, connecting to an accepted request puts a BEGIN on the wire that the mirrored exit verifies and opens on that stream; it reads the request's host and port from it if and only if the host has no zero byte |
| `Tunnel.ReadsBackExactlyWhen` | TorTunnel.cpp:72-74 | host:port and its zero read back as host and port if and only if the host holds no zero byte, whatever else it contains |
| `Tunnel.ZeroInDomain` | SocksConnection.cpp:149-164 | the input: a domain of x, colon, 1, zero is accepted and reaches the exit as host x, port 1 |
| `Tunnel.OpenStream` | TorTunnel.cpp:70-79 | the successive appends, then the circuit's connect step |
| `Decimal.NumberOfText` | TorTunnel.cpp:74-74 | the decimal text of a port determines it |
| `Decimal.TextIsCanonical` | TorTunnel.cpp:74-74 | without leading zero |
| `Decimal.PortLength` | TorTunnel.cpp:74-74 | at most five digits |
| `Tunnel.DottedLength` | SocksConnection.cpp:209-210 | a dotted address has at most 15 characters |
| `Shuffler.PumpSafety` | ProxyShuffler.cpp:41-92 | in every run and both directions the bytes handed to write are a prefix of the bytes read, all of them while open, ahead of the confirmed ones by at most the one pending chunk; both streams are closed once |
| `Shuffler.ClosedExactlyWhen` | ProxyShuffler.cpp:57-80 | in every run the pump and both streams are closed exactly when a stream has ended or a write has failed |
| `Shuffler.HandedIsFetched` | ProxyShuffler.cpp:49-68 | what is handed to one side is what the other side answered to the reads: all of it while open, a prefix after close |
| `Shuffler.NothingStartsAfterClose` | ProxyShuffler.cpp:55-92 | after close no read or write starts, nothing more is handed on, and each stream stays closed once |
| `Shuffler.SafeStep` | ProxyShuffler.cpp:49-92 | every completion keeps this and leaves the other direction alone |
| `Shuffler.ProxyShuffler.constructor` | ProxyShuffler.cpp:36-39 | two distinct 512-byte buffers, nothing started |
| `Shuffler.ProxyShuffler.Shuffle` | ProxyShuffler.cpp:41-47 | starts one read on each side |
| `Shuffler.ProxyShuffler.ReadComplete` | ProxyShuffler.cpp:49-68 | refines the read completion; the chunk handed to write stays in its buffer, the other buffer is untouched |
| `Shuffler.ProxyShuffler.WriteComplete` | ProxyShuffler.cpp:70-84 | refines the write completion and touches no buffer |
| `Shuffler.ProxyShuffler.Close` | ProxyShuffler.cpp:86-92 | closes both streams the first time and does nothing after |
| `Shuffler.ProxyShuffler.Begin` | ProxyShuffler.cpp:41-84 | one direction starts an operation or stops |

## Left out

- TLS set-up and renegotiation, the BIO buffers, and `writeFully`/`writeFromBuffer`: `writeCell` is an
  atomic append to an ordered wire log. (After WANT_WRITE the code resumes a write as a read,
  `protocol/Connection.cpp:149-152`; the model does not cover that path.)
- The mathematics of RSA, AES, SHA-1 and Diffie-Hellman, and randomness: uninterpreted functions and
  parameters. `AES_ctr128_encrypt` itself is OpenSSL code and is not part of the repository; its
  stepping follows OpenSSL's documented behaviour.
- Sending the CREATE cell, `Circuit::create`, and decoding the CREATED cell: the model starts from key
  material and check value.
- Outgoing flow control: the program ignores SENDME cells and has no package window.
- Re-entrance of dispatcher handlers, as said above; `removeStreamId`, which nothing calls.
- `TwoParty.CreditConservation` is about streams with fresh nonzero ids and a circuit that the client has not
  closed: ids come from a random source, and after close no cell is consumed.
- `CellEncryption.CellEncrypter.SetKeyMaterial` is for an encrypter that has passed no cell yet: the circuit
  calls it once.
- `Circuits.Circuit.ReadCreatedCellComplete` has the same restriction, for the same reason.
- `Circuits.Circuit.Connect` is for addresses whose text and NUL fit a cell of 498 bytes: the constructor does not
  check, and `Tunnel.SocksToBegin` shows that every SOCKS request fits.
- `Circuits.Circuit.SendBeginCell` has the same restriction.
- `Tunnel.OpenStream` has the same restriction, which every accepted SOCKS request meets.
- `Cells.Cell.Relay` is for at most 498 bytes of data, which is all that the circuit passes: the constructor does
  not check, and what it would write behind the buffer is not modelled.
- `Cells.Cell.RelayString` has the same restriction, its NUL included.
- `Windows.CircuitWindowLaw` counts SENDME cells on stream 0 as the circuit's, so it leaves out runs in which a DATA
  or END cell arrives on stream 0; `Windows.CircuitWindowRange` covers them.
- The pump on top of the dispatcher's standing read handler: a second cell can come while the socket
  write is pending, so the pump is proved for streams that answer each read and each write once.
- `Identity.GetBase16EncodedIdentity` returns a failure for a token that does not decode; the code goes on with
  a negative length there.
- `Base64.Base64Decode` does not model the overflow of 3 * length in a 32-bit int, on inputs of more than 700 MB.
- Freeing and sharing of memory, logging, and console messages.
- The SOCKS replies (`respondConnected`, `respondConnectError`) and plain reads and writes after the
  request.
- NETINFO cells, the `read*` functions of Cell, directory and descriptor scanning, HTTP fetching,
  TorScanner, and the command line: mostly library calls with little to prove.
