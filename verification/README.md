# Verified model of the database server's protocol and of its log library

Dafny models of three parts of the repository, each with the properties it relies on.

**The packet codec.** `Bytes`, `NetStream` and `Streams` model memory, byte swapping and the two
fixed-buffer streams. `Packet` gives the codec as functions on field lists: the values of the
entries, the memory behind their data pointers, and every branch of encoding and decoding;
`PacketTypes` gives its type codes and widths in numbers.
`PacketCodec` is the same code as loops over an array of descriptors that update values and caller
buffers in place, proved equal to those functions. `PacketProofs`, `PacketSizes`,
`PacketRoundTrip`, `PacketElements` and `PacketReencode` prove what the functions are for: exact
sizes, unique framing, the round trip between any two hosts, which arrays it restores, and the way
back from bytes to bytes. The checksum
is any function from bytes to 32-bit words, the same on both sides.

**Sessions.** `SessionSpec` is one server session as a state machine over completed asynchronous
operations, `SessionHandlers` the class with its methods, proved equal step by step. `Reassembly`
says which cuts of a part survive the session's offset rule, `SessionStalls` which parts leave a
session waiting for nothing; `SessionRuns` follows a session
through every legal delivery of a stream; `ConnectExchange` instantiates that with the real
CONNECT and DISCONNECT messages; `Client` and `ClientReceive` are the receiving side; `Acceptor`
holds all sessions. The network decides the size of every chunk, and the clock is an input of every
step.

**The log library (log4z).** `LogQueue` is the asynchronous manager as a state machine: one step
for every locked region and every unlocked test, any number of producer threads, the log thread and
`stop`, in any interleaving. `LogAlone` says what each call comes to when no other thread moves in
between, and what is left of that when others do; `LogQueueProofs`, `LogFilter` and `LogRuns` prove
invariants and theorems over runs. `LogManager` is the class with its methods: between any two of its steps the
other threads may take any number of theirs, and every method is proved to be a run of the machine.
`LogStream` is the text stream with its table-driven number printer, `LogRecord` a record's day
cache and its end, `LogFile` the choice and rolling of files over a disk that maps file names to
lengths, `LogRolling` when a file is kept and when it is left, `LogConfig` the configuration parser,
`LogSettings` what its lines do, told in their characters.

Fields named as history in the queue model (addresses in use, items pushed and popped so far, when
and why a logger last became stricter) are not in the original, and no test looks at them.

Where the code and its comments or intentions differ, the model follows the code, and says when the
intention holds:

- A part that arrives in three or more chunks is reassembled wrongly by a session, and one that
  arrives in two or more by the client, although every byte is accounted for
  (`IntactIffTwoChunks`, `IntactIffOneChunk`).
- The client decodes a body through a window of the header's size, so it accepts a body exactly
  when it is no longer than 32 bytes (`AcceptsShortBodies`).
- `fields_size` counts 8 bytes for an element of a long long array and the streams move 4
  (`SizeExact`, `SendFillsBuffer`), so half of the bytes of such an array are lost on the way
  (`RestoredIff`, `LongLongWitness`).
- A full `copy_fields` stops at the first entry of type char, whose type number is 0
  (`FullCopyFaithful`).
- A setter that compares a level and then stores it may raise the level although it meant to lower
  it (`StoreStricterIff`, `StaleStoreWitness`).
- A size limit of 0, meant as no limit, limits files to 4095 MB (`NoLimitIsALimit`); and records
  that go back a day reopen that day's first file however long it is (`DaysMustNotGoBack`,
  `SafeIffOpensShort`).
- A thread's stamps show day zero of January 1900 until it has seen a time outside the first day of
  the epoch (`StampIsFreshIff`).
- A session that receives a part without a mark, with a wrong checksum or of an unknown method is
  neither closed nor read from again, and stays in the acceptor's set (`StallsIff`, `ZerosStall`,
  `StalledStays`).

## Model

| member | source | states |
|---|---|---|
| `Bytes.SignedRoundTrip` | src/protocol/packet_protocol.cpp:46-57 | a signed value survives truncation to 1, 2, 4 or 8 bytes if and only if it is in that type's range |
| `Bytes.MostSignificantFirst` | src/common/net_stream.cpp:16-31 | the four bytes of a number on the wire and in the memory of either kind of host |
| `NetStream.Swap2` | src/common/net_stream.cpp:4-14 | the exchange of two bytes in a local array is byte reversal of the number, on either kind of host |
| `NetStream.Swap4` | src/common/net_stream.cpp:16-31 | the two exchanges in a local array are byte reversal of the number |
| `NetStream.Swap8` | src/common/net_stream.cpp:33-42 | two four-byte swaps with the halves exchanged are the full reversal of eight bytes |
| `NetStream.SwapInvolutive` | src/common/net_stream.cpp:4-42 | swapping twice gives the number back, for every width |
| `NetStream.WireOrderIsHostIndependent` | src/common/output_stream.cpp:145-179 | swapping exactly on little-endian hosts puts the same bytes on the wire from either |
| `Streams.OutputStream.WriteNumber` | src/common/output_stream.cpp:139-179 | appends the number most significant byte first, or trips the assertion exactly when it does not fit |
| `Streams.OutputStream.WriteArray` | src/common/output_stream.cpp:181-227 | appends every element in network order; trips the assertion exactly when the whole array does not fit |
| `Streams.InputStream.ReadNumber` | src/common/input_stream.cpp:139-180 | the value read is the big-endian value of the next bytes, which are used up; trips exactly when too few are left |
| `Streams.InputStream.ReadArray` | src/common/input_stream.cpp:182-228 | one block read and an in-place swap of every element leave in the caller's array the elements sent, and nothing behind them changes |
| `Streams.ArrayWireTwice` | src/common/output_stream.cpp:181-227 | writing an array and reading it back restores every byte, for every element size |
| `Streams.ArrayValuesCross` | src/common/input_stream.cpp:182-228 | between hosts of any two kinds every element keeps its value |
| `PacketCodec.SerializePacket` | src/protocol/packet_protocol.cpp:12-156 | the loop over descriptors writes the bytes, leaves the values and returns the status that the value model's encoding has, for every list and every buffer |
| `PacketCodec.SerializeField` | src/protocol/packet_protocol.cpp:39-146 | every branch by type, count and predecessor writes what the value model says |
| `PacketCodec.UnserializeHeaderPacket` | src/protocol/packet_protocol.cpp:159-232 | the header loop sets exactly the values, and returns the status, of the value model's decoding |
| `PacketCodec.UnserializeBodyPacket` | src/protocol/packet_protocol.cpp:234-386 | the body loop fills the same values and caller buffers, with the same status, and touches nothing else |
| `PacketCodec.CopyFields` | src/protocol/packet_protocol.cpp:388-402 | what is copied, where the copy stops and what is returned, in both modes |
| `PacketCodec.FullCopyFaithful` | src/protocol/packet_protocol.cpp:388-402 | a full copy is the list itself if and only if no entry has type char |
| `PacketCodec.FieldsSize` | src/protocol/packet_protocol.cpp:405-497 | the four totals are sums of the predicted sizes over all, header and body entries, and the body's entry count |
| `PacketProofs.EncodeWellFormed` | src/protocol/packet_protocol.cpp:12-156 | encoding a well-formed list writes exactly its sealed packet, or trips the assertion if and only if the buffer is too small |
| `PacketProofs.SealedFields` | src/protocol/packet_protocol.cpp:19-37 | encoding changes the two checksum entries and no other |
| `PacketProofs.HeaderIs32` | src/protocol/packet_protocol.h:72-80 | the header of every well-formed list takes 32 bytes |
| `PacketTypes.ArrayTravels` | src/protocol/packet_protocol.cpp:66-144 | in numbers: only a two-byte short and a four-byte long can tell an array's length; then a message with an array of any of the seven types is well formed, has exactly the stated number of bytes, and each element in network order at its type's width; the sizing counts as many unless they are long longs |
| `PacketTypes.LengthMustBeThere` | src/protocol/packet_protocol.cpp:99-102 | an array of variable length behind an entry of another type ends encoding and decoding with their errors, and decoding also behind another array |
| `PacketSizes.FieldSizeExact` | src/protocol/packet_protocol.cpp:414-476 | a field's predicted size is its encoded length if and only if it is not a non-empty long long array; otherwise it is larger |
| `PacketSizes.SizeExact` | src/protocol/packet_protocol.cpp:405-497 | predicted and written lengths of any run of fields agree if and only if it holds no non-empty long long array |
| `PacketSizes.SendFillsBuffer` | src/core/network/session_handler.cpp:175-189 | the buffer of the predicted total is filled to its end, header and body sum to it, and the size entry tells the body's length, if and only if no non-empty long long array is sent; it never overflows |
| `PacketSizes.FramingIsUnique` | src/core/network/session_handler.cpp:116-142 | taking a header and then the number of bytes it states, repeatedly, recovers exactly the packets laid end to end |
| `PacketSizes.StreamDeterminesPackets` | src/core/network/session_handler.cpp:116-142 | two sequences of packets with the same bytes are the same sequence |
| `PacketRoundTrip.PacketRoundTrips` | src/protocol/packet_protocol.cpp:12-402 | for every well-formed list and any two hosts, decoding the packet into templates of its shape succeeds, uses up every byte, and restores every scalar, checksums included, and of every array the bytes that travel, which for long long arrays is half of them |
| `PacketRoundTrip.ElementRestored` | src/protocol/packet_protocol.cpp:292-375 | element k of a decoded array is element k of the encoded one, also between hosts of different byte order, at the size in which elements travel: four bytes for long long arrays, the type's own size for all others |
| `PacketElements.RestoredIff` | src/protocol/packet_protocol.cpp:292-375 | all elements of an array, at the size of its type, are restored for all memories and any two hosts if and only if it is not a non-empty long long array |
| `PacketElements.ArrayRestored` | src/protocol/packet_protocol.cpp:292-375 | every other array is restored element by element between any two hosts, and byte for byte between hosts of one kind, leaving the memory behind it alone |
| `PacketElements.LastLongLongLost` | src/common/input_stream.cpp:115-119 | of a long long array sent as ones into zeros the last element does not arrive |
| `PacketElements.LongLongWitness` | src/common/output_stream.cpp:115-119 | a list with one long long element 1 to 8, sent into eight zero bytes, leaves 1, 2, 3, 4, 0, 0, 0, 0 |
| `PacketRoundTrip.HeaderTrip` | src/protocol/packet_protocol.cpp:159-232 | the header decodes to the sealed header entries, mark and checksum tests passing |
| `PacketRoundTrip.BodyTrip` | src/protocol/packet_protocol.cpp:234-386 | the body decodes entry by entry, each array with the length decoded before it |
| `PacketReencode.DecodeThenEncode` | src/protocol/packet_protocol.cpp:12-386 | for every accepted packet without negative wire lengths, the decoded list is well-formed and encodes to the same number of bytes, equal everywhere but in the upper halves of the two checksums |
| `PacketReencode.BodyBack` | src/protocol/packet_protocol.cpp:234-386 | the decoded body entries encode to exactly the bytes they were read from |
| `PacketReencode.HeaderBack` | src/protocol/packet_protocol.cpp:159-232 | each decoded header entry encodes to the four bytes it was read from |
| `Messages.ConnectForm` | src/protocol/protocol_network.h:5-14 | a CONNECT with names inside their 1024-byte buffers is a well-formed list |
| `Messages.CString` | src/core/network/api_network.cpp:9-20 | the name logged is the text before the first zero byte |
| `SessionHandlers.SessionHandler.Start` | src/core/network/session_handler.cpp:31-44 | the new state: a zeroed header part, wanted whole at the front of the buffer |
| `SessionHandlers.SessionHandler.HandleRead` | src/core/network/session_handler.cpp:57-98 | error, empty, short and completing reads, with the original's offset rule and dispatch on the mark; an error or an empty read leaves the session closed with nothing outstanding, any other read at most one operation |
| `SessionHandlers.SessionHandler.HandleWrite` | src/core/network/session_handler.cpp:100-114 | after a write the next header is wanted in the memory there is; an error leaves the session closed with nothing outstanding |
| `SessionHandlers.SessionHandler.HandlePacketHeader` | src/core/network/session_handler.cpp:116-149 | a header that decodes makes the session want the body it announces; one that does not leaves it waiting for nothing |
| `SessionHandlers.SessionHandler.HandlePacketBody` | src/core/network/session_handler.cpp:151-163 | dispatch on the method of the last header |
| `SessionHandlers.SessionHandler.ReadPacketBody` | src/core/network/session_handler.cpp:165-173 | the body decodes into the caller's template under the last header |
| `SessionHandlers.SessionHandler.SendPacket` | src/core/network/session_handler.cpp:175-201 | the socket gets the encoded packet in a buffer of the predicted size |
| `SessionHandlers.SessionHandler.MsgConnect` | src/core/network/api_network.cpp:6-24 | both names are decoded and logged and the reply is sent, or the error is returned |
| `SessionHandlers.SessionHandler.MsgDisconnect` | src/core/network/api_network.cpp:26-42 | a decoded DISCONNECT closes the session |
| `SessionHandlers.EncodeMessage` | src/core/network/session_handler.cpp:175-187 | sizing, the size entry and encoding together give the buffer of the session model |
| `Reassembly.ShortReads` | src/core/network/session_handler.cpp:57-75 | for every number of short reads the session goes on to want exactly the missing bytes, inside the part, and touches nothing behind it |
| `Reassembly.PartCompletes` | src/core/network/session_handler.cpp:57-92 | a part is dispatched with the chunk that completes it and not before, so no byte of the next part is taken |
| `Reassembly.IntactIffTwoChunks` | src/core/network/session_handler.cpp:65-75 | with non-empty chunks the offset rule reassembles every part correctly if and only if the part comes in at most two |
| `Reassembly.LastByteStale` | src/core/network/session_handler.cpp:65-75 | from three chunks on the last byte of the part is never written |
| `Reassembly.ThreeChunkWitness` | src/core/network/session_handler.cpp:65-75 | three one-byte reads leave the third place as it was |
| `SessionRuns.RunAt` | src/core/network/session_handler.cpp:57-202 | every legal run from any known position of the exchange ends in a known position |
| `SessionRuns.CanGoOn` | src/core/network/session_handler.cpp:57-114 | a run that has not finished can always go on |
| `SessionRuns.RunsAreBounded` | src/core/network/session_handler.cpp:57-114 | every step brings the end nearer, so no run goes on for ever |
| `SessionRuns.SessionServes` | src/core/network/session_handler.cpp:57-202 | for every peer and every delivery with at most one short read per part: no crash, no stall, names in order, one answer per login, and a finished run has used up the stream and closed |
| `SessionRuns.EveryRunCanFinish` | src/core/network/session_handler.cpp:57-202 | however a legal run has gone so far, it can be continued until every login is seen and answered, the stream used up and the session closed |
| `ConnectExchange.ConnectSessions` | src/core/network/api_network.cpp:6-42 | the same for the real messages, any two hosts and any script of logins ended by a DISCONNECT: names arrive as sent, each CONNECT gets one reply written in full, and the session closes at the DISCONNECT |
| `ConnectExchange.ConnectSessionsFinish` | src/core/network/api_network.cpp:6-42 | the same for the real messages: every delivery so far can go on to that end |
| `ConnectExchange.ScriptIsUnderstood` | src/protocol/protocol_network.h:5-30 | every header of the script is dispatched as a header and every body as a body, with the stated effect |
| `ConnectExchange.ConnectArrives` | src/core/network/api_network.cpp:8-20 | the names decoded from a CONNECT equal those sent |
| `ConnectExchange.DisconnectArrives` | src/core/network/api_network.cpp:26-36 | the body of a DISCONNECT is accepted |
| `ConnectExchange.ReplySends` | src/core/network/api_network.cpp:22-23 | the reply is encoded whole into a buffer of exactly its size |
| `ConnectExchange.HeaderDecodes` | src/core/network/session_handler.cpp:116-149 | the header of every message of the script decodes, whatever the session's clock says |
| `ConnectExchange.MarkReads` | src/core/network/session_handler.cpp:78-84 | read through an int pointer the marks are themselves on either kind of host |
| `Client.RecvPart` | src/api/rtdb_client_impl.cpp:116-130 | whatever the cuts, exactly the wanted bytes leave the stream, and the buffer is what writing every chunk to its front makes of it |
| `ClientReceive.RecvPacket` | src/api/rtdb_client_impl.cpp:108-208 | the whole of recv_packet on the socket and the caller's fields: once the header is accepted exactly header and body leave the stream whichever way the method is answered, before that exactly the header; result and fields are those of the value model; there is no answer if and only if the stream holds less than that, and then all of it is used up |
| `ClientReceive.RecvAnswer` | src/api/rtdb_client_impl.cpp:149-207 | the header is taken over only if it answers the method asked, the body is received in any case and parsed only then; there is no answer if and only if the stream is shorter than the body |
| `ClientReceive.SendPacket` | src/api/rtdb_client_impl.cpp:81-105 | the encoded packet goes to the socket in one write; success means all of it went, anything less is an error, and a message that cannot be encoded sends nothing |
| `Client.IntactIffOneChunk` | src/api/rtdb_client_impl.cpp:119-130 | the client reassembles every part correctly if and only if it comes in one piece |
| `Client.AcceptsShortBodies` | src/api/rtdb_client_impl.cpp:132-207 | a well-formed answer of the expected method is accepted, with every scalar and of every array what travels restored, if and only if its body is at most 32 bytes; a longer one trips the assertion |
| `Client.AnswersAre` | src/api/rtdb_client_impl.cpp:132-207 | what any 32 header bytes and any body come to: wrong mark, wrong checksum, the return value of a common message, an unexpected method; and a body is accepted only under its mark and with a right checksum inside the window |
| `Client.OtherAnswers` | src/api/rtdb_client_impl.cpp:149-207 | a well-formed packet of another method than the one asked, whatever its body: a common message gives its return value, any other is not expected |
| `Client.ConnectSucceeds` | src/api/rtdb_client_impl.cpp:52-59 | the server's connect reply is accepted and tells success and permission 1 |
| `Acceptor.NextKeeps` | src/core/network/async_acceptor.cpp:24-75 | every completion keeps the set equal to the sessions not closed, all of them started but the pending one, and a closed session waits for nothing |
| `Acceptor.RunsKeepTheSet` | src/core/network/async_acceptor.cpp:24-75 | in every reachable state the set is exactly the started sessions not yet closed and the pending one, which is not started; until an accept fails there is one |
| `Acceptor.ClosedIff` | src/core/network/session_handler.cpp:46-114 | a completed operation closes its session if and only if it is a failed accept, a failed or empty read, a failed write, or the read that completes an accepted DISCONNECT; then it waits for nothing and is out of the set; all other sessions are left alone |
| `Acceptor.ClosedForGood` | src/core/network/session_handler.cpp:46-55 | a closed session is never reopened, restarted or entered again in any run |
| `Acceptor.ClosedOnlyByAnEnd` | src/core/network/session_handler.cpp:46-114 | over every run a session is closed if and only if one of its events was such an end |
| `Acceptor.AcceptedIs` | src/core/network/async_acceptor.cpp:36-52 | an accepted session reads 32 bytes over zeros at the front of its buffer while one new handler waits; a failed accept leaves none |
| `Acceptor.NoMoreHandlers` | src/core/network/async_acceptor.cpp:36-52 | after a failed accept no later event of any run makes a handler |
| `Acceptor.StalledStays` | src/core/network/session_handler.cpp:89-91 | a started session that waits for nothing is never closed and stays in the set through every run |
| `Acceptor.FirstHeaderStallsIff` | src/core/network/session_handler.cpp:76-149 | the first 32 bytes of a client leave its session open, waiting for nothing and in the set if and only if they have neither mark, or the header mark and a wrong checksum |
| `Acceptor.ZerosStall` | src/core/network/session_handler.cpp:89-91 | a client that sends 32 zero bytes does that |
| `SessionStalls.StallsIff` | src/core/network/session_handler.cpp:76-173 | a complete part of any session stalls it if and only if it has neither mark, or is a header with a wrong checksum, a body of an unknown method, or a body of a known method whose entries and checksum lie inside the announced size and whose checksum is wrong |
| `SessionStalls.CompletingReadStallsIff` | src/core/network/session_handler.cpp:57-92 | the read that completes a part stalls the session by the same guards |
| `SessionStalls.OthersNeverStall` | src/core/network/session_handler.cpp:57-114 | short, empty and failed reads, starts and writes never stall a session |
| `SessionStalls.ClosesIffFarewell` | src/core/network/api_network.cpp:26-42 | a complete part closes the session if and only if it is the body of a DISCONNECT, announced with at least 12 bytes that are there, whose checksum is right |
| `SessionStalls.HeaderAccepted` | src/protocol/packet_protocol.cpp:159-232 | any 32 bytes as a header: refused for a wrong mark, then for a wrong checksum if that is compared, else accepted with the six numbers at their places |
| `SessionStalls.HeaderTaken` | src/core/network/session_handler.cpp:116-142 | a right header makes the session wait for exactly the announced bytes, at the front of its buffer and over zeros, the memory behind kept; a negative size ends in undefined behaviour |
| `Acceptor.AsyncAcceptor.Start` | src/core/network/async_acceptor.cpp:24-34 | one handler is made, entered in the set and handed to the accept |
| `Acceptor.AsyncAcceptor.HandleAccept` | src/core/network/async_acceptor.cpp:36-52 | the accepted session starts and a new one takes its place; on an error it is removed and deleted |
| `LogManager.LogManager.MakeLogData` | src/libs/log4z.cpp:1202-1220 | whatever other threads do between its steps, the call is a run of the machine that ends with a record in hand, from the pool after a second test under its lock, or a new one |
| `LogManager.LogManager.FreeLogData` | src/libs/log4z.cpp:1303-1315 | size test and insertion, or deletion, are steps of the machine |
| `LogManager.LogManager.PushLog` | src/libs/log4z.cpp:1542-1617 | the tests and the locked push are steps of the machine; a record accepted met, since the call, a moment when the manager ran and its logger was there and enabled, and one when its level was enough, is at the end of the queue and is all the thread has pushed; one refused met a moment when it had to be, is given back and never pushed |
| `LogManager.LogManager.HotChange` | src/libs/log4z.cpp:1631-1648 | a change is queued, once, exactly if the log thread was running when that was tested, and otherwise made before the call returns |
| `LogManager.LogManager.OnHotChange` | src/libs/log4z.cpp:1650-1668 | enable and level of the one logger named, and nothing else |
| `LogManager.LogManager.EnableLogger` | src/libs/log4z.cpp:1670-1679 | the call is made in the machine: enabling is one step that pushes nothing, disabling a hot change for that logger, queued while running and else made; unknown loggers are refused |
| `LogManager.LogManager.SetLoggerLevel` | src/libs/log4z.cpp:1680-1689 | the call is made in the machine: comparison and immediate store are two steps, with others possibly between them, and a raise is a hot change to that level; if nothing was queued the level is set |
| `LogManager.LogManager.PopLog` | src/libs/log4z.cpp:1897-1918 | the front of the cache is taken, after a take-over of the whole queue if the cache is empty; otherwise the queue was seen empty |
| `LogManager.LogManager.HandleLog` | src/libs/log4z.cpp:1947-2008 | a change is made; a record of a known logger is counted; it is written, and counted as written with its bytes, only if its file opened and it met moments when its logger was enabled and its level enough, and not written only if its file did not open or it met a moment when they were not; by steps of the machine |
| `LogManager.LogManager.QuitOrGoOn` | src/libs/log4z.cpp:2026-2030 | the loop is left only with running false and the queue empty, and gone on with only if running was seen true or the queue not empty |
| `LogManager.LogManager.BooksHold` | src/libs/log4z.cpp:1897-2008 | so at every point of a real run cache and queue are what was pushed and not popped, in order, the pool is within its bound, the counters add up, and running is false if and only if stop was called, as it is once the loop is left |
| `LogAlone.PushAlone` | src/libs/log4z.cpp:1542-1617 | with no other thread moving, a record is pushed, once and at the end of the queue, if and only if the manager runs and its logger exists, is enabled and asks for no higher level; else it goes to the pool while that holds fewer than 200 |
| `LogAlone.EnableMoment` | src/libs/log4z.cpp:1545-1549 | with others moving before and after, the first test lets a record on if and only if the manager ran and the logger existed and was enabled in the state it saw |
| `LogAlone.LevelMoment` | src/libs/log4z.cpp:1551-1556 | and the second if and only if the logger's level in the state it saw was no higher than the record's |
| `LogAlone.LogCallAlone` | src/libs/log4z.cpp:1202-1220 | a whole log call alone: the record pushed holds what was asked, in the last address of the pool or a new one |
| `LogAlone.HotAlone` | src/libs/log4z.cpp:1631-1668 | a hot change alone is queued if and only if the log thread runs, and otherwise made: its own setting of its own logger |
| `LogAlone.SettersAlone` | src/libs/log4z.cpp:1670-1689 | enabling and lowering take effect at once, disabling and raising become hot changes, and unknown loggers change nothing |
| `LogAlone.PopAlone` | src/libs/log4z.cpp:1897-1918 | the log thread takes the oldest entry of cache and queue, or finds both empty |
| `LogAlone.RecordAlone` | src/libs/log4z.cpp:1947-2008 | a record popped is written, and counted with its bytes, if and only if its logger exists, is enabled and asks for no higher level, and its file opens; it is freed in any case |
| `LogAlone.ChangeAlone` | src/libs/log4z.cpp:1956-1962 | a hot change popped is made if its logger exists, counted nowhere, and freed |
| `LogAlone.QuitAlone` | src/libs/log4z.cpp:2026-2030 | at the end of a round the loop is left if and only if the manager has been stopped and the queue is empty |
| `LogRuns.NextKeeps` | src/libs/log4z.cpp:1202-2030 | every step of every thread keeps all invariants |
| `LogRuns.RunKeeps` | src/libs/log4z.cpp:1202-2030 | and so does every interleaving |
| `LogRuns.RunsKeepBooks` | src/libs/log4z.cpp:1897-2008 | in every reachable state cache and queue are one FIFO queue, popped in push order, exactly once; every live record is in exactly one place; pool plus pending inserts is at most 199 plus the number of threads; pushed, popped, written and dropped records and bytes add up |
| `LogRuns.QuitLeavesNothing` | src/libs/log4z.cpp:2026-2030 | when the log thread leaves its loop everything pushed so far has been popped |
| `LogRuns.NothingPoppedAfterQuit` | src/libs/log4z.cpp:2026-2030 | afterwards nothing is popped, so a late push stays for good |
| `LogRuns.RunningUntilStopped` | src/libs/log4z.cpp:1492-1507 | in every reachable state the manager runs if and only if stop is not in the run |
| `LogRuns.QuitOnlyAfterStop` | src/libs/log4z.cpp:2026-2030 | the log thread leaves its loop only in runs that hold a stop |
| `LogRuns.DropHasCause` | src/libs/log4z.cpp:1964-1972 | a record the second filter drops had its logger made stricter after its acceptance test began, and by which step |
| `LogRuns.DroppedOnlyByChangeAhead` | src/libs/log4z.cpp:1947-1972 | with atomic setters and the log thread running, that step was a disable or level change for the same logger queued ahead of the record |
| `LogRuns.FreshStoresBlockNothing` | src/libs/log4z.cpp:1670-1689 | immediate enables and lowerings that still are lowerings make no logger stricter |
| `LogRuns.AtomicRunsHaveNoStaleStore` | src/libs/log4z.cpp:1680-1689 | no run with atomic setters has a stale store |
| `LogRuns.StoreStricterIff` | src/libs/log4z.cpp:1680-1689 | an immediate store makes the logger stricter if and only if the level went below the stored one after the comparison |
| `LogRuns.StaleStoreWitness` | src/libs/log4z.cpp:1680-1689 | two setters meaning to lower a level of 5 leave it raised from 1 to 4 |
| `LogQueueProofs.FifoConsumer` | src/libs/log4z.cpp:1897-1918 | popping and swapping keep the two containers one FIFO queue |
| `LogQueueProofs.OwnerProducer` | src/libs/log4z.cpp:1202-1220 | no producer step loses or duplicates a record |
| `LogQueueProofs.PoolProducer` | src/libs/log4z.cpp:1303-1315 | the unlocked size test lets the pool grow by at most one for every thread past it |
| `LogFilter.AdvanceOk` | src/libs/log4z.cpp:1542-1556 | after each of the two acceptance tests the record still passes what was tested, or its logger has become stricter since the first |
| `LogFilter.FilteredConsumer` | src/libs/log4z.cpp:1947-1972 | every step of the log thread keeps the account of why a queued record might be dropped |
| `LogStream.NumeralReadsBack` | src/libs/log4z.h:705-802 | the digits printed mean the number, in every base from 2 to 16 |
| `LogStream.NumeralIsUnique` | src/libs/log4z.h:705-802 | no other text of the printer's digits without a needless leading zero means it |
| `LogStream.PrintedNumber` | src/libs/log4z.h:793-799 | the padded text has at least the asked width, reads back as the number, and exceeds the width only by digits that count |
| `LogStream.PrintedSigned` | src/libs/log4z.h:694-703 | the signed text reads back as the number exactly where more than 64 characters are left behind the sign; otherwise only the sign is there |
| `LogStream.TablesHold` | src/libs/log4z.h:710-738 | every entry of the two literal tables is its index written with two digits |
| `LogStream.PairStep` | src/libs/log4z.h:751-782 | a turn of a two-digit loop agrees with two turns digit by digit, and only the last leaves a surplus zero |
| `LogStream.FillPairs` | src/libs/log4z.h:751-782 | for every 64-bit value the table loops leave exactly the canonical numeral at the end of the scratch buffer |
| `LogStream.FillDigits` | src/libs/log4z.h:783-791 | so does the digit loop in every other base, without running over the scratch buffer even in base 2 |
| `LogStream.Pad` | src/libs/log4z.h:793-797 | zeros in front up to the width |
| `LogStream.TextStream.WriteULongLong` | src/libs/log4z.h:705-802 | appends the padded numeral if more than 64 characters fit and nothing otherwise, and never writes past the end pointer |
| `LogStream.TextStream.WriteLongLong` | src/libs/log4z.h:694-703 | a sign, then the magnitude's digits; with between 2 and 65 characters of room a negative number leaves its sign alone |
| `LogStream.TextStream.WriteString` | src/libs/log4z.h:905-919 | appends the text cut to the room left |
| `LogStream.TextStream.WriteChar` | src/libs/log4z.h:895-903 | appends the character only if another one still fits |
| `LogRecord.StampIsFreshIff` | src/libs/log4z.cpp:1265-1288 | for any order of times the cached stamp equals the one computed afresh if and only if the thread has seen a time outside the first day of the epoch |
| `LogRecord.DayCache.Look` | src/libs/log4z.cpp:1268-1276 | the cache is refreshed exactly for a time outside its day; the result is the second of the day shown |
| `LogRecord.BaseName` | src/libs/log4z.cpp:1559-1566 | the backward scan finds the end of the path that the definition gives |
| `LogRecord.BaseIsLongestPlainEnd` | src/libs/log4z.cpp:1559-1566 | that end holds no separator of either kind, and no longer one does |
| `LogRecord.PlaceInFull` | src/libs/log4z.cpp:1567-1573 | file name and line stand there in full, as blank, name, colon and decimal number, if and only if more than 64 characters are left behind the colon |
| `LogRecord.Record.Append` | src/libs/log4z.h:389-398 | the message follows the stamp, cut to the record's buffer |
| `LogRecord.Record.AppendPlace` | src/libs/log4z.cpp:1557-1573 | file name and line follow the message as far as there is room |
| `LogRecord.Record.Close` | src/libs/log4z.cpp:1575-1579 | whatever came before, the record ends with CR LF and a terminator inside its buffer, and is at most 8191 bytes long |
| `LogFile.FileLogger.OpenLogger` | src/libs/log4z.cpp:1772-1881 | day test, 32-bit limit test, index, closing and reopening for appending, and what a failed open leaves; an open file of the day that is not past its limit is kept as it is, and the index is 0 on another day, one more past the limit, else the same |
| `LogFile.FileLogger.WriteRecord` | src/libs/log4z.cpp:1964-2007 | second filter, file choice, append and length count, also when the write falls short |
| `LogFile.FileLogger.HotChange` | src/libs/log4z.cpp:1650-1668 | the setting changes and the file is closed whatever was changed |
| `LogFile.FileLogger.EndRound` | src/libs/log4z.cpp:2010-2021 | between rounds the file of a disabled logger is closed |
| `LogRolling.RecordGoes` | src/libs/log4z.cpp:1782-1881 | in lengths and seconds: a record the logger does not take changes nothing; one it takes goes to the open file if and only if that is of the day and not past its limit, else to one opened for it at the next index or at 0; only that file grows; an open that fails writes nothing and turns file output off |
| `LogRolling.KeptIff` | src/libs/log4z.cpp:1787-1803 | a record written whole leaves the open file open with its index if and only if it is of the file's day and the file is not past its limit; past it on that day the index goes up by one, on another day to 0 |
| `LogRolling.NoFileIsLeftShort` | src/libs/log4z.cpp:1787-1803 | over any run within a day without hot changes every file left is past the limit |
| `LogRolling.SilentUntilTurnedOn` | src/libs/log4z.cpp:1852-1860 | a logger that is off or does not write to files, as after a failed open, writes nothing until a hot change turns that on |
| `LogRolling.LengthsGrow` | src/libs/log4z.cpp:1851-1861 | no event empties or removes a file |
| `LogRolling.TodayMeans` | src/libs/log4z.cpp:1787-1787 | the seconds since the last midnight opened for are fewer than a day's exactly on the same calendar day, and days have 24 hours |
| `LogRolling.NamedAfterRecord` | src/libs/log4z.cpp:1809-1850 | a file is named after the day and the minute of the record that opens it, and the index |
| `LogRolling.ChangeSets` | src/libs/log4z.cpp:1650-1668 | a hot change sets its own setting and no other, and closes the file |
| `LogRolling.RestCloses` | src/libs/log4z.cpp:2010-2021 | between rounds the file of a disabled logger is closed, and nothing else happens |
| `LogFile.EveryFileIsBounded` | src/libs/log4z.cpp:1772-1881 | over any run of records, hot changes, failed opens and short writes in which days do not go back, no file exceeds the largest effective limit in use by more than 8191 bytes |
| `LogFile.SteadyLimit` | src/libs/log4z.cpp:1787-1803 | with a limit fixed at 1 to 4095 MB every file ends at most 8191 bytes past it |
| `LogFile.LengthsNeverWrap` | src/libs/log4z.cpp:1787-1861 | in such runs the 32-bit length wraps neither when a file is opened nor when a record is added |
| `LogFile.ThresholdOf` | src/libs/log4z.cpp:1788-1788 | the limit in bytes is the limit modulo 4096 times 2^20, and a record more still fits 32 bits |
| `LogFile.NoLimitIsALimit` | src/libs/log4z.cpp:1695-1699 | the limit stored for 0 is 4095 MB |
| `LogFile.DaysMustNotGoBack` | src/libs/log4z.cpp:1787-1798 | alternating between two days grows the first day's file by a record each time, for any number of rounds, whatever the limit |
| `LogFile.SafeIffOpensShort` | src/libs/log4z.cpp:1787-1861 | in any state within the limit and a record, records of every length keep it so if and only if the file opened, if one is, is not yet past the limit |
| `LogFile.OtherDayOpensIndexZero` | src/libs/log4z.cpp:1787-1803 | for a record of another day that is the index-0 file of its day |
| `LogFile.ShortRunsStayTame` | src/libs/log4z.cpp:1772-1881 | so over any run, whatever its days, no file exceeds the bound by more than a record as long as none past the bound is opened |
| `LogConfig.Trim` | src/libs/log4z.cpp:561-609 | one scan drops a byte order mark and the ignorable characters at both ends |
| `LogConfig.TrimmedIsTheMiddle` | src/libs/log4z.cpp:561-609 | only ignorable characters are dropped, and none is left at either end |
| `LogConfig.SplitPair` | src/libs/log4z.cpp:612-620 | key and value around the first equals sign give the line back; without one the line is all key |
| `LogConfig.ConfigParser.ReadLine` | src/libs/log4z.cpp:622-789 | a line changes the open section and the entries as the line's meaning says, and is refused only for an empty key |
| `LogConfig.ConfigParser.ReadContent` | src/libs/log4z.cpp:791-828 | parsing is the ordered fold of the line parser over the lines between CR or LF characters |
| `LogConfig.LineByLine` | src/libs/log4z.cpp:802-826 | a text is read up to its first CR or LF and then from behind it, and as one line if it has none |
| `LogSettings.SettingLine` | src/libs/log4z.cpp:664-788 | each of the ten setting names, in any case and with blanks around, reaches its own field of the open section and nothing else; any other text reaches nothing, and without an open section nothing is reached; a switch is off for "false" in any case and "0", else on |
| `LogSettings.LevelLine` | src/libs/log4z.cpp:687-717 | a level line gives the open section the number of each of the nine level names, in any case; any other value changes nothing |
| `LogSettings.NumberLine` | src/libs/log4z.cpp:754-787 | white space, a sign, zeros and the decimal numeral of n give n with its sign, whatever follows that is not a digit; the size limit is kept in 32 bits |
| `LogSettings.NoNumberLine` | src/libs/log4z.cpp:754-787 | a number without a digit is 0 |
| `LogSettings.HeaderLine` | src/libs/log4z.cpp:637-663 | a header opens the section of the text between its brackets, "Main" for "main" in any case; a new section has the stated defaults, an old one keeps its own |
| `LogSettings.CommentLine` | src/libs/log4z.cpp:632-635 | a line whose first character that is not blank is # changes nothing |
| `LogSettings.EqualsMayLack` | src/libs/log4z.cpp:612-620 | a line without an equals sign is like one with nothing behind it |
| `LogConfig.ParseOfParts` | src/libs/log4z.cpp:802-826 | parsing goes on at a line break from where the text before it left off |
| `LogConfig.LineEndsDoNotMatter` | src/libs/log4z.cpp:802-826 | writing every LF as CR LF changes nothing |
| `LogConfig.BlankLineAnywhere` | src/libs/log4z.cpp:622-635 | a line of blanks put between two lines changes nothing |
| `LogConfig.BlankLineFirst` | src/libs/log4z.cpp:622-635 | nor does one before the first line |
| `LogConfig.BlankLineLast` | src/libs/log4z.cpp:622-635 | nor one behind the last |
| `LogConfig.ParsingKeeps` | src/libs/log4z.cpp:649-657 | every entry's key stays the one it is filed under, and no entry is lost |
| `LogConfig.OnlyTheOpenSection` | src/libs/log4z.cpp:637-672 | a header leaves every existing entry alone; any other line can change only the entry of the section opened last |
| `LogConfig.OtherFieldsStay` | src/libs/log4z.cpp:673-788 | a setting changes no field but its own |
| `LogConfig.LastSettingDecides` | src/libs/log4z.cpp:673-788 | of several settings of a field the last decides, except that an unknown level keeps the level |

## Left out

- Scalar float and double fields: the writer converts and the reader takes bits, so they do not round trip; the codec model gives them an outside-the-domain status.
- Counts of -2 to -4, negative wire lengths of arrays, and arrays longer than the caller's memory: reserved or undefined in the original, the same status.
- Streams in a failed state other than running past their buffer; the integer results of the reads are not used by the codec.
- The checksum algorithm: any function from bytes to 32-bit words; nothing is claimed about errors it detects.
- PacketCodec.FieldsSize: sums are mathematical integers, the original's wrap at 32 bits.
- PacketCodec.UnserializeBodyPacket: the caller's arrays are disjoint, as in every template of the repository; two entries sharing memory are not modelled.
- ConnectExchange.ConnectSessions: clocks are restricted to values that fit the 32-bit time entry.
- Client.AcceptsShortBodies: the two parts are taken as received in one piece each, which the receive loops need anyway (`Client.IntactIffOneChunk`).
- Acceptor.AsyncAcceptor.HandleAccept: sessions are numbers and their states values; allocation succeeds; addresses are not reused.
- Session and acceptor locking, sockets, threads and the event loop: only their completions are steps.
- The log queue's back-pressure delay, automatic reloading of the configuration, console output, the synchronous output branch, and the records the log thread writes about itself when it starts.
- LogManager.LogManager.MakeLogData: a new record never has the address of an earlier one.
- LogManager.LogManager.PushLog: shared flags and levels are read and written one at a time in program order; no weaker memory model.
- LogStream.TextStream.WriteLongLong: the negation of the least 64-bit number is taken as its magnitude, which is what two's complement hardware gives; bases outside 2 to 16 and widths over 64 run over the original's tables and are excluded.
- Floating-point text, pointers, binary dumps and containers written to a log stream.
- The text of the stamp around its numbers, and the level name after it.
- LogRecord.StampIsFreshIff: a zone of fixed offset and days of 24 hours; the calendar is any function from days to dates.
- LogFile.EveryFileIsBounded: the rolling index is not wrapped at 32 bits, a disk starts without files of this process, other loggers write elsewhere, and old files are not deleted.
- LogRolling.NoFileIsLeftShort: runs with short writes or hot changes, which close the file so that the next record opens one named after its own minute.
- LogConfig.ConfigParser.ReadLine: `atoi` is not limited to 32 bits before the limit is reduced to a word; printed warnings are left out.
- Applying a parsed configuration to the loggers: setter calls covered by the queue model.
- src/libs/app.cpp, daemon.h, file.h, config.h, src/main.cpp, network_server.cpp and singleton.h: they start, stop and configure the process and its threads, and have no part in the protocol or the log queue.
