# A model of the cloud teaching assistant, and what it keeps

The system lets one computer show its screen to others and be controlled by them. A signalling server brings
clients together; the picture and the sound travel as an RTMP stream through a relay server. This project
models the parts of both servers and of the client whose correctness is not visible from one function, and
proves what they promise.

`dafny verify dfyconfig.toml` verifies the whole project.

## How the model is built

Code that changes objects in place is modelled by classes and methods over the same fields, buffers and loops.
Each such method is proved against a function on values, and the properties of whole runs are proved about those
functions. The main results, hardest first:

- **RTMP chunks** (`Chunk*.dfy`, `Rtmp*.dfy`, `BufferReader.dfy`, `Bytes.dfy`). `ChunkSpec` is one call of the
  parser, `ChunkStream` the read loop over a byte stream that is cut anywhere, `ChunkWire` the byte form,
  `ChunkRoundTrip`, `ChunkInterleaving` and `ChunkDelivery` the way from messages to bytes and back, `ChunkSegments`
  the same for a chunk size that changes, `ChunkEmpties` and `ChunkWoken` what messages of length zero do to it.
  `ChunkFormat` pins writer and parser to the bytes, each on its own; `ChunkOutcomes` says how runs end. `RtmpChunk`,
  `RtmpReadLoop` and `RtmpChunkWriter` are the code itself, on the heap, with its shared payload buffers.
- **Signalling** (`Signal*.dfy`, `SigConnection.dfy`). A transition system over all connections and the registry;
  every step keeps the roles, the registration and the mutual partner lists exactly if two rules are followed;
  `SignalLosses` says what breaks otherwise, `SignalExamples` shows runs that do. `SignalEffects` says what every step
  does to every client and sends it.
- **AMF0** (`Amf*.dfy`). A growing-buffer encoder and a recursive decoder, and exactly when the one undoes the other;
  `AmfFormat` pins each to the bytes.
- **Timers** (`TimerQueue.dfy`), **select** (`SelectReactor.dfy`), **H.264 units** (`NalFinder.dfy`), **buffered
  writing** (`WritePath.dfy`), **fan-out and key-frame gate** (`MediaGate.dfy`, `MediaSession.dfy`), **handshake**
  (`Handshake.dfy`), **queues of the capture side** (`MediaQueues.dfy`).

The system shares several files between client and servers; each is modelled once.

What lies outside is a parameter: the bytes a socket delivers or takes, the answer of select, the time, random
bytes, the answers of timer callbacks, the byte that happens to lie behind a buffer, and which sinks still exist.

## Where the code differs from what one would expect

- A message of length zero makes the body parser consume nothing, and the read loop takes that as a reason to
  stop, in front of bytes that have arrived. `ReadsMatterExactly` says for all byte streams when the cuts between
  reads matter: if the loop gives up in front of at least two bytes that would have let it go on.
  `WrittenReadsMatterExactly` says it of written streams: if the first empty message is followed by another chunk,
  except for one kind of pair of empty messages at the end. `FragmentationExactly` covers reads of no bytes as well.
  What matters is only when: `CutsOnlyDelay` says that the loop, woken by later reads, gets to the same place always.
- An empty message is never handed out, and its entry is not reset. If it had an extended timestamp, the parser looks
  for one in the next message of the chunk stream too and takes four bytes of its payload. `InStepExactly` says when
  reader and writer stay in step: if no such message is followed by one without an extended timestamp.
- The writer announces a new chunk size in a message that is written under that size already. `EarlySize` says why
  the reader can cope.
- The chunk parser keeps chunk stream ids in eight bits; `BasicHeaderReadExactly` says which ids survive.
- The writer takes an extended timestamp from a field of its own, which the senders leave at zero. `RoundTrip`
  says that exactly the messages that repeat their timestamp in that field keep it, and `RelayedTimeExactly` says
  the same of messages that are sent on by the relay, which takes the header field and not the rebuilt timestamp.
- A text decoded from AMF goes through a C string, so it ends at a zero byte, and one is looked for even behind
  the text. An object ends with an empty text, so one with nothing behind it is read beyond the end
  (`ObjectNeedsZeroBehind`). `DecodesExactly` says when decoding stays inside, `LosesExactly` when it loses nothing,
  `RoundTrip` both.
- An answer to a stream request with an empty address does no harm to the partner lists; an answer with an
  address does, unless all partners pull (`CreateExactly`). A join does harm exactly under an empty code or that
  of a departed client (`JoinExactly`): a client under an empty code can be reached by nobody, and one under the
  code of a departed client loses its registration when that one's socket is lost (`JoinHarmsExactly`).
- A video header that is sent again in the middle of a stream does not make viewers wait for a key frame again
  (`HeaderGatesExactly`). The key-frame test looks at the first byte of audio messages as well.
- A repeating timer with interval zero is due again at once. The timer loop ends, with each due timer fired once,
  exactly if no such timer asks to be repeated at its turn (`EndsExactly`).
- Timer ids start over after the last. `AddTimer` says when the two indexes still agree then.
- The parameter sets of the encoder are told apart exactly if they are of the right types and neither has a long
  start code inside (`Split`).
- The output buffer is allocated by the configured chunk size and filled by the one in force; `FitsExactly` says when
  that is enough.

## Model

| member | source | states |
|---|---|---|
| Bytes.U16BERoundTrip | CloudTeachingAssistant/BufferReader.cpp:146-151 | a 16-bit value written big-endian is read back, modulo its width, wherever it lies |
| Bytes.U24BERoundTrip | CloudTeachingAssistant/BufferReader.cpp:132-137 | the same for 24 bits |
| Bytes.U32BERoundTrip | CloudTeachingAssistant/BufferReader.cpp:118-123 | the same for 32 bits |
| Bytes.U32LERoundTrip | CloudTeachingAssistant/BufferReader.cpp:125-130 | the same for 32 bits, little-endian |
| BufferReaders.BufferReader.Retrieve | CloudTeachingAssistant/BufferReader.cpp:38-52 | drops exactly the first n unread bytes, or all if there are fewer |
| BufferReaders.BufferReader.ReadFromSocket | CloudTeachingAssistant/BufferReader.cpp:54-79 | received bytes are appended behind the unread ones, which survive the growth of the buffer; at the size limit nothing is read |
| ChunkSpec.ParseSafe | CloudTeachingAssistant/RtmpChunk.cpp:16-67 | on every reachable state and all bytes a call consumes no more than it is given, never fails and keeps the state reachable (positions below lengths, buffers present, a valid stream id in a body); a message handed out is complete and not empty |
| ChunkSpec.UndefinedExactly | CloudTeachingAssistant/RtmpChunk.cpp:303-306 | the only undefined call is a body piece under an input chunk size of zero while the message still lacks bytes |
| ChunkStream.FeedSafe | CloudTeachingAssistant/RtmpConnection.cpp:78-108 | over any number of network reads of any bytes the loop never sees a failure, the parser stays reachable and the messages already handled stay as they were |
| ChunkOutcomes.AdvanceOutcome | CloudTeachingAssistant/RtmpConnection.cpp:82-141 | what the message that a pass hands out does: refused, it ends the connection; of type 1, it sets the chunk size to its first four bytes; otherwise its handler leaves the parser alone or empties the table |
| ChunkOutcomes.RefusedExactly | CloudTeachingAssistant/RtmpConnection.cpp:78-141 | over any number of reads the run ends refused if and only if the handler of some message handed out refuses it; that message is the last, what is unread is the end of the stream, and the chunk size is that of the last message that set it |
| ChunkOutcomes.RefusalIsFinal | CloudTeachingAssistant/RtmpConnection.cpp:90-94 | bytes that come later pile up behind what a refused run left unread |
| ChunkStream.AdvanceWithMore | CloudTeachingAssistant/RtmpConnection.cpp:82-105 | a pass that does not wait for bytes does the same when more bytes are behind |
| ChunkStream.AdvanceRetried | CloudTeachingAssistant/RtmpChunk.cpp:187-231 | a header pass that stopped for a missing extended timestamp has changed the entry already, and yet the later retry ends the same |
| ChunkStream.DrainInTwo | CloudTeachingAssistant/RtmpConnection.cpp:82-105 | running the loop on a part and again when the rest arrives ends where one run over everything ends, if that run left no work undone |
| ChunkStream.FragmentationExactly | CloudTeachingAssistant/RtmpConnection.cpp:78-141 | reads of no bytes included, messages, parser state, unread bytes and status are independent of how the stream is cut, chunk size changes and refusals included, if and only if a single read leaves nothing to do |
| ChunkStream.ReadsMatterExactly | CloudTeachingAssistant/RtmpConnection.cpp:78-108 | for reads that deliver something: how a stream is cut matters if and only if the loop, given everything at once, ends an empty body in front of at least two bytes on which a further pass would act |
| ChunkStream.HeaderInertExactly | CloudTeachingAssistant/RtmpChunk.cpp:125-260 | no further pass acts at a header exactly if its fixed part is not all there, or says nothing new while a needed extended timestamp is not all there |
| ChunkStream.EmptyBodyIsZeroLength | CloudTeachingAssistant/RtmpChunk.cpp:278-310 | a pass ends a body without consuming anything exactly if a message of length zero was announced and a byte follows |
| ChunkStream.UncutRunIsInert | CloudTeachingAssistant/RtmpConnection.cpp:96-105 | a run that meets no empty body leaves nothing to do |
| ChunkStream.PositiveLengthsMayBeCut | CloudTeachingAssistant/RtmpConnection.cpp:78-108 | byte streams without empty messages may be cut anywhere |
| ChunkStream.EmptyBodyCutsShort | CloudTeachingAssistant/RtmpConnection.cpp:96-99 | at any chunk boundary two empty messages in a row are a stream whose outcome depends on the cuts between non-empty reads |
| ChunkEmpties.WrittenReadsMatterExactly | CloudTeachingAssistant/RtmpChunk.cpp:262-311 | for messages on distinct chunk streams, empty ones allowed, written and merged at chunk boundaries in any order: the cuts between non-empty reads matter if and only if the first empty message is followed by another chunk, and not by an empty message of the same kind, stream and chunk stream without the extended timestamp the first one has and with fewer than four bytes behind it |
| ChunkWoken.CutsOnlyDelay | CloudTeachingAssistant/RtmpConnection.cpp:78-108 | for all byte streams, cuts and policies: once the loop has been woken until it no longer gives up, messages, parser state, unread bytes and status are those of a single read that was woken likewise |
| ChunkWoken.Jammed | CloudTeachingAssistant/RtmpChunk.cpp:214-253 | where the entry still holds an extended timestamp, the chunk of a message without one leaves the reader short of bytes or inside a body |
| ChunkWoken.InStepExactly | CloudTeachingAssistant/RtmpChunk.cpp:16-67 | for messages on distinct chunk streams, empty ones allowed, written and merged at chunk boundaries in any order: after each chunk the reader, once woken, has read everything and expects a header, if and only if no empty message with an extended timestamp is directly followed on its chunk stream by a message without one |
| ChunkWoken.FullMessagesArrive | CloudTeachingAssistant/RtmpChunk.cpp:16-123 | and in that case each chunk stream's non-empty messages arrive in order, for all interleavings and all cuts, once the loop has been woken |
| ChunkWire.BasicHeaderReadExactly | CloudTeachingAssistant/RtmpChunk.cpp:131-167 | a basic header is read back as written exactly for stream ids 2 to 255 |
| ChunkWire.MessageHeaderRead | CloudTeachingAssistant/RtmpChunk.cpp:336-365 | each field of a message header is read back as written, in each of the formats |
| ChunkWire.LeadRead | CloudTeachingAssistant/RtmpChunk.cpp:84-93 | the whole header in front of a message is read back, whatever follows it |
| ChunkWire.AgainRead | CloudTeachingAssistant/RtmpChunk.cpp:106-111 | the same for the short header of later chunks |
| ChunkFormat.FirstChunk | CloudTeachingAssistant/RtmpChunk.cpp:84-93 | the first chunk of a message in plain numbers: one byte of id, the time in three bytes or FF FF FF from 16777215 on, length, type, message stream, then four bytes of time only in that case, then the payload |
| ChunkFormat.LaterChunk | CloudTeachingAssistant/RtmpChunk.cpp:95-120 | each later chunk in plain numbers |
| ChunkFormat.LongIds | CloudTeachingAssistant/RtmpChunk.cpp:313-334 | the one, two or three bytes of id |
| ChunkFormat.Format0Read | CloudTeachingAssistant/RtmpChunk.cpp:125-260 | what the parser makes of a full header, byte by byte: twelve bytes taken, or sixteen if the time is 16777215 or the entry's last one was, or nothing while they are missing |
| ChunkFormat.Format1Read | CloudTeachingAssistant/RtmpChunk.cpp:125-260 | the same for headers without message stream |
| ChunkFormat.Format2Read | CloudTeachingAssistant/RtmpChunk.cpp:125-260 | the same for headers with a time difference only |
| ChunkFormat.Format3Read | CloudTeachingAssistant/RtmpChunk.cpp:125-260 | the same for headers of one byte |
| ChunkFormat.LongIdRead | CloudTeachingAssistant/RtmpChunk.cpp:131-167 | behind a longer id the same fields are read |
| ChunkFormat.BodyRead | CloudTeachingAssistant/RtmpChunk.cpp:16-67 | a piece of a body in plain numbers: how much is taken, when a header comes next, and the message that comes out with its time while its entry is emptied |
| ChunkRoundTrip.LaneChunksStep | CloudTeachingAssistant/RtmpChunk.cpp:95-120 | the chunks of a list of messages are the next chunk and the chunks of what then remains |
| ChunkRoundTrip.HeaderPass | CloudTeachingAssistant/RtmpChunk.cpp:125-260 | the parser takes exactly the header of a chunk stream's next chunk and opens the entry for it, other entries untouched |
| ChunkRoundTrip.BodyPass | CloudTeachingAssistant/RtmpChunk.cpp:262-311 | the parser takes exactly the next piece; with the last one the message comes out, its timestamp rebuilt, and the entry is ready for the next |
| ChunkRoundTrip.DrainChunk | CloudTeachingAssistant/RtmpConnection.cpp:82-105 | one chunk takes the read loop from a chunk boundary to the next |
| ChunkInterleaving.DrainInterleaved | CloudTeachingAssistant/RtmpConnection.cpp:78-108 | chunks of several streams, merged in any order that keeps each stream's own, come apart into exactly each stream's messages, from any chunk boundary on |
| ChunkInterleaving.FeedInterleaved | CloudTeachingAssistant/RtmpConnection.cpp:78-108 | the same for bytes that arrive in pieces |
| ChunkDelivery.RoundTrip | CloudTeachingAssistant/RtmpChunk.cpp:16-123 | messages on distinct chunk streams, written, merged at chunk boundaries in any order, cut anywhere and read: each stream's messages arrive in order with type, stream id and payload, every byte is consumed and the parser ends at a header; the timestamps arrive too if and only if every extended one is repeated in its own field |
| ChunkSegments.EarlySize | CloudTeachingAssistant/RtmpConnection.cpp:110-141 | on the message that sets the chunk size, short enough for one chunk under either size, the read loop ends as if the new size had been in force before |
| ChunkSegments.AnnouncementServes | CloudTeachingAssistant/RtmpConnection.cpp:610-621 | the message this program sends is one such, for all sizes of four and more |
| ChunkSegments.SegmentsRoundTrip | CloudTeachingAssistant/RtmpConnection.cpp:610-621 | the round trip over any number of changes of the chunk size, each announced by a message that is written under the new size already: all messages of each chunk stream arrive in order, announcements included, for all interleavings within a segment and all cuts; timestamps under the same condition |
| ChunkDelivery.TimestampsReconstructed | CloudTeachingAssistant/RtmpChunk.cpp:233-253 | an absolute timestamp followed by differences: each message gets the sum up to its own, modulo 64 bits, and inherits the stream id and, in format 2, the type |
| ChunkDelivery.TimestampsArrive | CloudTeachingAssistant/RtmpConnection.cpp:78-108 | the same through the parser: the chunk stream merged with others and cut anywhere, the n-th message that comes out has the summed timestamp, the stream id of the first, its own type or in format 2 that of the message before, and its payload |
| ChunkDelivery.RelayedTimeExactly | CloudTeachingAssistant/RtmpConnection.cpp:747-763 | a relayed message tells the publisher's time exactly if its own was absolute and not extended, or a difference to zero |
| RtmpChunks.RtmpChunk.DecodeHead | CloudTeachingAssistant/RtmpChunk.cpp:125-185 | decodes the header fields of each format and each length of basic header, or nothing if bytes are missing |
| RtmpChunks.RtmpChunk.Announce | CloudTeachingAssistant/RtmpChunk.cpp:187-213 | a header of format 0 or 1 starts the message anew, with a new buffer if the length changed |
| RtmpChunks.RtmpChunk.SetTime | CloudTeachingAssistant/RtmpChunk.cpp:233-253 | only the first chunk of a message sets the timestamp fields |
| RtmpChunks.RtmpChunk.ParseChunkHeader | CloudTeachingAssistant/RtmpChunk.cpp:125-260 | the table, phase and unread bytes change as the specification says |
| RtmpChunks.RtmpChunk.ParseChunkBody | CloudTeachingAssistant/RtmpChunk.cpp:262-311 | the piece is copied into the entry's buffer in place, all other entries and buffers as before |
| RtmpChunks.RtmpChunk.Cleared | CloudTeachingAssistant/RtmpMessage.h:28-37 | resetting a message replaces its buffer by a new one |
| RtmpChunks.RtmpChunk.Emit | CloudTeachingAssistant/RtmpChunk.cpp:32-59 | a complete message leaves with its buffer, which is no longer in the table |
| RtmpChunks.RtmpChunk.Parse | CloudTeachingAssistant/RtmpChunk.cpp:16-67 | one call on the heap refines the specification's call |
| RtmpReadLoop.HandleMessage | CloudTeachingAssistant/RtmpConnection.cpp:110-141 | a message may set the input chunk size, clear the table or end the connection |
| RtmpReadLoop.HandleChunk | CloudTeachingAssistant/RtmpConnection.cpp:78-108 | the loop ends, refines the specification's loop, and no message it handed out is written to again although buffers are shared; it fails exactly if a message was refused, which is then the last |
| RtmpReadLoop.OnRead | CloudTeachingAssistant/RtmpConnection.cpp:39-72 | one readable event appends what was received and runs the loop over everything unread; new buffers are fresh, so that what was handed out before is out of reach of this and of later reads |
| RtmpReadLoop.OnReads | CloudTeachingAssistant/RtmpConnection.cpp:39-72 | any number of readable events are the feeding of the pieces received, and at the end every message handed out since the start still holds what it held when it was completed |
| RtmpChunkWriter.EncodedSize | CloudTeachingAssistant/RtmpChunk.cpp:69-123 | the exact number of bytes written: h + 11 + e + len + (ceil(len/c) - 1)(h + e) |
| RtmpChunkWriter.FitsExactly | CloudTeachingAssistant/RtmpConnection.cpp:664-669 | for all stream ids and chunk sizes: the allocation does not wrap around, and holds the whole message if and only if headers and extended timestamps stay within the reserve |
| RtmpChunkWriter.AllocationSuffices | CloudTeachingAssistant/RtmpConnection.cpp:664-669 | for 24-bit lengths, one-byte headers and chunks not smaller than the configured size the allocation passes the writer's check and is large enough |
| RtmpChunkWriter.CreateChunk | CloudTeachingAssistant/RtmpChunk.cpp:69-123 | the buffer holds exactly the message's chunks, bytes behind them are untouched, the length of the message is used up; or -1 and nothing changed |
| RtmpChunkWriter.SendRtmpChunks | CloudTeachingAssistant/RtmpConnection.cpp:664-675 | what is sent is all chunks of the message by the chunk size in force, or nothing exactly if the allocation fails the writer's check |
| SignalInvariant.NotifyAllExactly | CloudTeachingAssistant/SigConnection.cpp:153-174 | notifying a list of codes reaches exactly the connections registered under them, each once |
| SignalInvariant.ClearExactly | CloudTeachingAssistant/SigConnection.cpp:147-179 | a departure changes the departing connection, its partners and its registration, and nothing else |
| SignalInvariant.LeaveEffect | CloudTeachingAssistant/SigConnection.cpp:63-76 | a partner strikes off exactly the departed code, becomes idle if it was the last and is told how many remain |
| SignalInvariant.ClearKeepsInv | CloudTeachingAssistant/SigConnection.cpp:147-179 | a departure keeps roles, registration and mutual lists |
| SignalInvariant.JoinExactly | CloudTeachingAssistant/SigConnection.cpp:181-211 | a join keeps them if and only if it is refused or its code is neither empty nor a departed client's |
| SignalInvariant.ObtainKeepsInv | CloudTeachingAssistant/SigConnection.cpp:245-331 | asking for a stream always keeps them |
| SignalInvariant.AnnounceAllStrikes | CloudTeachingAssistant/SigConnection.cpp:358-379 | with an address, partners that do not pull are struck off the creator's list and no other list changes |
| SignalInvariant.CreateExactly | CloudTeachingAssistant/SigConnection.cpp:333-381 | answering a stream request keeps them if and only if the address is empty or all partners pull |
| SignalRuns.StepExactly | CloudTeachingAssistant/SigConnection.cpp:103-145 | each step keeps them if and only if it is orderly |
| SignalRuns.OrderlyRunKeepsInv | CloudTeachingAssistant/SigConnection.cpp:147-381 | so does every orderly run |
| SignalRuns.PartnersAfterRun | CloudTeachingAssistant/SigConnection.cpp:147-381 | after an orderly run two live clients list each other or neither does, and no list names a departed client |
| SignalRuns.DepartedStays | CloudTeachingAssistant/SigConnection.cpp:24-27 | a departed connection stays departed over any orderly run |
| SignalRuns.DeleteNotices | CloudTeachingAssistant/SigConnection.cpp:154-174 | a departure notifies exactly the partners; the count is what each has left, and zero exactly for one that is idle now |
| SignalEffects.JoinEffect | CloudTeachingAssistant/SigConnection.cpp:181-211 | a join is accepted exactly if the client has not joined and the code is free; what it is then, and the answer in both cases |
| SignalEffects.DeleteEffect | CloudTeachingAssistant/SigConnection.cpp:228-234 | a client departs on request exactly if it pushes or pulls |
| SignalEffects.ObtainEffect | CloudTeachingAssistant/SigConnection.cpp:245-331 | a request is granted if and only if the client is idle and the code is that of another client that is idle or pushes to an address; then both list each other and the client pulls; who is sent what in each case; otherwise the client alone is sent a refusal |
| SignalEffects.CreateEffect | CloudTeachingAssistant/SigConnection.cpp:333-381 | the whole answer to a request: with an address every pulling partner is sent it, every other is told of the failure and struck off, and the client pushes if anybody is left; without one every partner is told and idle; nobody else is sent anything |
| SignalLosses.RegistrationLostExactly | CloudTeachingAssistant/SigConnection.cpp:19-22 | when a departed connection is departed once more, another client loses its registration exactly if it has joined under the same code, and nothing else about it changes |
| SignalLosses.Unreachable | CloudTeachingAssistant/SigConnection.cpp:245-256 | a live client without registration: every request for its stream is refused, it cannot join again, and partners that depart stay on its list |
| SignalLosses.LossesSafeExactly | CloudTeachingAssistant/SigConnection.cpp:147-179 | clients are still served after the loss of any one connection if and only if the codes of departed connections are free |
| SignalLosses.JoinHarmsExactly | CloudTeachingAssistant/SigConnection.cpp:181-211 | after a join, and after any one loss behind it, clients are served if and only if the join was refused or its code is neither empty nor a departed client's |
| SignalLosses.JoinServesExactly | CloudTeachingAssistant/SigConnection.cpp:181-211 | of the two harms, an empty code does its own at once and a departed client's code only with a loss |
| SignalExamples.CreatedByPuller | CloudTeachingAssistant/SigConnection.cpp:333-381 | a run from the start: two joins, a request, and an answer with an address by the side that asked; it forgets its partner, which goes on listing it |
| SignalExamples.JoinedNameless | CloudTeachingAssistant/SigConnection.cpp:187-205 | a run of two steps after which a live client is registered nowhere |
| SignalExamples.RegistrationLost | CloudTeachingAssistant/SigConnection.cpp:147-211 | a run in which a client joins under a departed one's code, is served, and loses its registration when the departed one's socket is lost |
| SigConnections.ConnectionManager.AddConn | CloudTeachingAssistant/ConnectionManager.cpp:24-38 | an empty or taken code is not registered |
| SigConnections.ConnectionManager.RemoveConn | CloudTeachingAssistant/ConnectionManager.cpp:40-54 | removes exactly the code |
| SigConnections.SigConnection.AddClient | CloudTeachingAssistant/SigConnection.cpp:49-61 | a code is listed once |
| SigConnections.SigConnection.RemoveClient | CloudTeachingAssistant/SigConnection.cpp:63-76 | the code is gone from the list; an emptied list makes the connection idle |
| SigConnections.SigConnection.Clear | CloudTeachingAssistant/SigConnection.cpp:147-179 | the loop over partners and the registry edits together are the departure step, seen over all connections |
| SigConnections.SigConnection.HandleJoin | CloudTeachingAssistant/SigConnection.cpp:181-211 | the join step, all branches and replies |
| SigConnections.SigConnection.DoObtainStream | CloudTeachingAssistant/SigConnection.cpp:245-331 | the obtain step, all branches and replies to both sides |
| SigConnections.SigConnection.DoCreateStream | CloudTeachingAssistant/SigConnection.cpp:333-381 | the create step over the partners listed at its start |
| SigConnections.SigConnection.HandleDeleteStream | CloudTeachingAssistant/SigConnection.cpp:228-234 | a busy connection departs |
| AmfRoundTrip.ReversedTwice | CloudTeachingAssistant/Amf.cpp:80-91 | the byte order of a double is turned round twice |
| AmfRoundTrip.CopyTextExactly | CloudTeachingAssistant/Amf.cpp:116-117 | copying a text stays within memory exactly if a zero byte lies at or behind its start, and gives the text up to its first zero byte |
| AmfRoundTrip.TextDecodesExactly | CloudTeachingAssistant/Amf.cpp:96-120 | a text is decoded as encoded if and only if it has no zero byte and one follows it |
| AmfRoundTrip.ValueDecodes | CloudTeachingAssistant/Amf.cpp:15-46 | a value is decoded into the field of its kind and nothing else changes, texts cut at their first zero byte; memory is left exactly for a text with no zero byte at or behind its start |
| AmfRoundTrip.EntriesDecode | CloudTeachingAssistant/Amf.cpp:122-155 | short entries are decoded to the table of their texts cut at the first zero byte, the first of colliding keys kept, although the bound on the bytes left counts keys only; memory is left exactly if no zero byte lies at or behind the end key |
| AmfRoundTrip.DecodesExactly | CloudTeachingAssistant/Amf.cpp:3-57 | decoding any such sequence stays inside readable memory if and only if it has no text or a zero byte lies at or behind the start of the last one, the end key of an object included; then every byte is consumed and the texts are cut at their first zero byte |
| AmfRoundTrip.LosesExactly | CloudTeachingAssistant/Amf.cpp:96-155 | cutting loses nothing if and only if the last scalar text and the last non-empty object have no zero byte in their texts and keys |
| AmfRoundTrip.ObjectNeedsZeroBehind | CloudTeachingAssistant/Amf.cpp:122-155 | an input that fails: any object with nothing behind it is read beyond the end |
| AmfRoundTrip.RoundTrip | CloudTeachingAssistant/Amf.cpp:3-57 | any sequence of scalars and objects, encoded and decoded without a limit, comes back exactly as encoded (the last scalar of each kind and the last non-empty object) if and only if a zero byte lies at or behind the start of the last text and the texts that remain have none inside |
| AmfRoundTrip.OrderDoesNotMatter | CloudTeachingAssistant/Amf.cpp:254-291 | whatever order a map yields its entries in, the decoded table is the map |
| AmfFormat.NumberForm | CloudTeachingAssistant/Amf.cpp:220-241 | the nine bytes of a number |
| AmfFormat.BooleanForm | CloudTeachingAssistant/Amf.cpp:243-252 | the two bytes of a boolean |
| AmfFormat.TextForm | CloudTeachingAssistant/Amf.cpp:183-218 | the bytes of a text, short or long, with and without type byte |
| AmfFormat.ObjectForm | CloudTeachingAssistant/Amf.cpp:254-291 | the bytes around an object, and the byte of an empty one |
| AmfFormat.ValueByType | CloudTeachingAssistant/Amf.cpp:15-46 | what each type byte makes the decoder do, errors and reads beyond the end included |
| AmfFormat.TextByType | CloudTeachingAssistant/Amf.cpp:96-120 | a text of any bytes: its length in two bytes, the end at the first zero byte, the error cases, and when memory is left |
| AmfFormat.LimitedDecode | CloudTeachingAssistant/Amf.cpp:47-53 | asked for some number of values the decoder takes exactly their bytes |
| AmfFormat.FirstKeyCounts | CloudTeachingAssistant/Amf.cpp:122-155 | of several entries under one key the first counts, in the field of its kind |
| AmfCodec.AmfEncoder.Realloc | CloudTeachingAssistant/Amf.cpp:372-384 | growing keeps what was written |
| AmfCodec.AmfEncoder.EncodeString | CloudTeachingAssistant/Amf.cpp:183-218 | appends the text's encoding, short or long, typed or not, into a buffer that grows first |
| AmfCodec.AmfEncoder.EncodeNumber | CloudTeachingAssistant/Amf.cpp:220-241 | appends the number's encoding |
| AmfCodec.AmfEncoder.EncodeBoolean | CloudTeachingAssistant/Amf.cpp:243-252 | appends the boolean's encoding |
| AmfCodec.AmfEncoder.EncodeObjects | CloudTeachingAssistant/Amf.cpp:254-291 | appends the map's entries, each exactly once, in some order, or the null marker |
| AmfCodec.AmfDecoder.CopyOfText | CloudTeachingAssistant/Amf.cpp:116-116 | the search for the zero byte and the copy are the specification's |
| AmfCodec.AmfDecoder.DecodeAll | CloudTeachingAssistant/Amf.cpp:3-57 | the decoding loop refines the specification; it ends although objects nest |
| AmfCodec.AmfDecoder.DecodeObject | CloudTeachingAssistant/Amf.cpp:122-155 | the loop over entries refines the specification |
| TimerQueues.OrderIsUnique | CloudTeachingAssistant/Timer.cpp:53-59 | the order of firing is determined |
| TimerQueues.HandledExactly | CloudTeachingAssistant/Timer.cpp:48-79 | handling in plain terms: which timers fire, the earlier timeout first and the smaller id first among equals, and when those that repeat are due again |
| TimerQueues.EndsExactly | CloudTeachingAssistant/Timer.cpp:48-79 | the loop reaches a state with nothing due, each due timer fired once, if and only if no due timer of interval zero asks to be repeated at its own turn |
| TimerQueues.ZeroIntervalNeverEnds | CloudTeachingAssistant/Timer.cpp:53-78 | a due timer with interval zero that keeps repeating stays due however long the loop runs |
| TimerQueues.TimerQueue.AddTimer | CloudTeachingAssistant/Timer.cpp:23-35 | a free id gets the new timer, a taken one keeps its own; the two indexes agree afterwards if and only if the id is free and not zero, or is taken by a timer due at the same time |
| TimerQueues.TimerQueue.RemoveTimer | CloudTeachingAssistant/Timer.cpp:37-46 | both indexes lose exactly that timer |
| TimerQueues.TimerQueue.HandleTimerEvent | CloudTeachingAssistant/Timer.cpp:48-79 | under the condition of EndsExactly the loop ends, its states are a run of that lemma, nothing is due at the end; every timer due at the start fired once, in order of (timeout, id); those that asked for it are due again one interval from now, the others are gone, the rest is as before; the indexes agree |
| SelectReactors.ReactorSelect.ChangeEvents | ECloudAssistant/Net/ReactorSelect.cpp:17-45 | a change of events together with its update keeps the cache valid |
| SelectReactors.ReactorSelect.UpdateChannel | ECloudAssistant/Net/ReactorSelect.cpp:17-45 | repairs a cache that does not know one channel's events; channels without events are not kept |
| SelectReactors.ReactorSelect.RemoveChannel | ECloudAssistant/Net/ReactorSelect.cpp:47-60 | removes exactly the channel of that socket and keeps the cache valid |
| SelectReactors.ReactorSelect.BuildSets | ECloudAssistant/Net/ReactorSelect.cpp:81-161 | the sets given to select, cached or rebuilt, are what a computation from scratch gives, and every member is within the bound |
| SelectReactors.ReactorSelect.Poll | ECloudAssistant/Net/ReactorSelect.cpp:163-204 | each channel with a ready socket is collected once, with exactly the events it is ready for |
| NalFinder.NalIsUnique | ECloudAssistant/Codec/H264Paraser.cpp:6-79 | the sliding search that the scanner is compared with determines the result |
| NalFinder.NalAtStart | ECloudAssistant/Codec/H264Paraser.cpp:26-71 | behind 00 00 01 the unit ends in front of the last such code, behind 00 00 00 01 in front of the next such code, otherwise with the data |
| NalFinder.NothingFound | ECloudAssistant/Codec/H264Paraser.cpp:6-79 | when nothing is found, in bytes |
| NalFinder.FindNal | ECloudAssistant/Codec/H264Paraser.cpp:6-79 | the scan with the rotating window stays within the data and returns what the sliding search says |
| NalFinder.Split | ECloudAssistant/Pusher/rtmp/RtmpPushManager.cpp:108-123 | two scans and the tests of the unit types give the two parameter sets if and only if these are of types seven and eight and neither has a long start code inside |
| WritePath.DrainedConserves | ECloudAssistant/Net/BufferWriter.cpp:51-88 | what the socket took and what stays queued are together what was queued, in order |
| WritePath.DrainedStops | ECloudAssistant/Net/BufferWriter.cpp:66-87 | packets stay behind exactly if the socket would not take the rest of one; the value returned tells the three cases apart |
| WritePath.BufferWriter.Append | ECloudAssistant/Net/BufferWriter.cpp:9-49 | a packet is queued last exactly if something is left of it and there is room |
| WritePath.BufferWriter.Send | ECloudAssistant/Net/BufferWriter.cpp:51-88 | the loop ends, for any answers of the socket, and loses nothing |
| WritePath.SendKeepsSound | ECloudAssistant/Net/TcpConnection.cpp:44-65 | a send step loses and reorders nothing, and afterwards an open connection waits for write events, and the reactor knows, exactly while bytes are queued |
| WritePath.SendEffect | ECloudAssistant/Net/TcpConnection.cpp:44-65 | a send queues the message if fewer than 500 wait, and offers the socket all that is queued, at once |
| WritePath.WriteEffect | ECloudAssistant/Net/TcpConnection.cpp:115-156 | a writable event offers what is queued; an error closes, and otherwise the write interest is exactly whether something is left |
| WritePath.TakesAll | ECloudAssistant/Net/BufferWriter.cpp:51-88 | a socket that takes all it is offered gets everything in one call |
| WritePath.ByteStream | ECloudAssistant/Net/TcpConnection.cpp:44-65 | over any run of sends, writable events and hang-ups the socket's bytes are a prefix of the accepted messages and the queue is the rest; the owner is told of the close exactly once |
| WritePath.EverythingArrives | ECloudAssistant/Net/TcpConnection.cpp:115-156 | as many writable events as bytes are queued deliver everything if the socket takes at least a byte each time |
| WritePath.TcpConnection.Send | ECloudAssistant/Net/TcpConnection.cpp:44-65 | the send step on the object |
| WritePath.TcpConnection.HandleWrite | ECloudAssistant/Net/TcpConnection.cpp:115-156 | the write step on the object, all branches |
| WritePath.TcpConnection.Close | ECloudAssistant/Net/TcpConnection.cpp:170-185 | closes once, leaves the reactor and tells the owner |
| MediaGate.Extended | CloudTeachingAssistant/RtmpConnection.cpp:731-745 | one more event changes what a trace says in exactly one way |
| MediaGate.MediaKeepsSound | CloudTeachingAssistant/RtmpConnection.cpp:704-766 | the flags keep saying what the trace says, and the trace stays gated |
| MediaGate.OfferedExactly | CloudTeachingAssistant/RtmpConnection.cpp:704-774 | what is sent on which chunk stream under which type, what is kept, and that a waiting sink that knows the format is sent a frame, and opens, exactly if its first byte is 0x17 |
| MediaGate.DeletedExactly | CloudTeachingAssistant/RtmpConnection.cpp:575-577 | the end of a stream resets both flags and keeps the headers |
| MediaGate.FirstFrameAfterHeader | CloudTeachingAssistant/RtmpConnection.cpp:731-745 | the first frame sent after the first video header starts with 0x17 |
| MediaGate.FirstFrameAfterDelete | CloudTeachingAssistant/RtmpConnection.cpp:575-577 | so does, once there was a header, the first frame after each end of the stream |
| MediaGate.HeaderGatesExactly | CloudTeachingAssistant/RtmpConnection.cpp:720-745 | a header makes the next frame a key frame, whatever is offered, if and only if the gate was still shut |
| MediaGate.FanOutExactly | CloudTeachingAssistant/RtmpSession.cpp:96-107 | a new viewer gets the stored non-empty headers, audio first, then the message; others the message alone; exactly which frames are held back |
| MediaSessions.RtmpSink.SendMediaData | CloudTeachingAssistant/RtmpConnection.cpp:704-766 | the gate on the object; the answer is true exactly if the sink is open and the payload not empty |
| MediaSessions.HeadersInBytes | CloudTeachingAssistant/RtmpConnection.cpp:261-305 | a video message is a header if it starts 17 00, an audio message if it starts with A and a second byte of zero |
| MediaSessions.RtmpSink.HandleDeleteStream | CloudTeachingAssistant/RtmpConnection.cpp:541-582 | without a path nothing happens, without a session it fails; otherwise the three flags are reset, the right notice is given and the removal from the session is due |
| MediaSessions.RtmpSink.HandlePublish | CloudTeachingAssistant/RtmpConnection.cpp:393-471 | succeeds exactly if the connection is open, does not publish and the session has no publisher that still exists; then the session starts anew with it, otherwise nothing changes |
| MediaSessions.RtmpSink.HandlePlay | CloudTeachingAssistant/RtmpConnection.cpp:473-539 | an open connection becomes a viewer of the session, whose headers and publisher stay |
| MediaSessions.RtmpSink.HandleVideo | CloudTeachingAssistant/RtmpConnection.cpp:281-318 | a stream description is kept before it goes to the viewers; every sink ends as the fan-out says, the sender too |
| MediaSessions.RtmpSink.HandleAudio | CloudTeachingAssistant/RtmpConnection.cpp:243-279 | the same for audio |
| MediaSessions.RtmpSession.AddSink | CloudTeachingAssistant/RtmpSession.cpp:12-26 | a publisher starts a stream anew, a viewer changes nothing but the table |
| MediaSessions.RtmpSession.RemoveSink | CloudTeachingAssistant/RtmpSession.cpp:28-42 | the sink's id leaves the table; with a publisher the headers go |
| MediaSessions.RtmpSession.SendMediaData | CloudTeachingAssistant/RtmpSession.cpp:83-111 | sinks that are gone are erased, every living viewer is served exactly once in any order, nobody else changes |
| Handshake.RtmpHandshake.Parse | CloudTeachingAssistant/RtmpHandshake.cpp:12-89 | nothing changes before a stage's bytes are there or under a wrong version; otherwise exactly those bytes are consumed and the answer is in the buffer |
| Handshake.RtmpHandshake.BuildC0C1 | CloudTeachingAssistant/RtmpHandshake.cpp:91-107 | the opening is the version, eight zeros and random bytes |
| Handshake.InNumbers | CloudTeachingAssistant/RtmpHandshake.cpp:20-84 | how much each stage wants, which version it refuses, and the bytes of each answer |
| Handshake.ReceiveExactly | CloudTeachingAssistant/RtmpHandshake.cpp:12-89 | what an end does with bytes that arrive, in numbers |
| Handshake.RunKeepsInv | CloudTeachingAssistant/RtmpHandshake.cpp:12-89 | what each end sent is a function of how much it received, over any run |
| Handshake.TwoPartyHandshake | ECloudAssistant/Pusher/rtmp/RtmpConnection.cpp:42-76 | for any cuts and any interleaving: no step fails, each end sees its own block come back, exactly the handshake's bytes are taken, bytes behind stay unread in order, and with nothing under way both are through |
| MediaQueues.AVList.Push | ECloudAssistant/Codec/AVQueue.h:11-22 | appends; head, tail and both pointer chains stay those of an acyclic list whose length is the size |
| MediaQueues.AVList.Pop | ECloudAssistant/Codec/AVQueue.h:24-40 | takes the oldest value, or leaves the caller's variable alone if there is none |
| MediaQueues.AVList.Clear | ECloudAssistant/Codec/AVQueue.h:42-52 | frees every node exactly once |
| MediaQueues.AudioBuffer.Compact | ECloudAssistant/Pusher/capture/AudioBuffer.h:112-118 | moving the data to the front in place keeps it |
| MediaQueues.AudioBuffer.Write | ECloudAssistant/Pusher/capture/AudioBuffer.h:23-41 | appends exactly as many bytes as fit; the whole capacity is always usable |
| MediaQueues.AudioBuffer.Read | ECloudAssistant/Pusher/capture/AudioBuffer.h:43-55 | gives the oldest bytes, all that were asked for or none |
| MediaQueues.SamplesExactly | ECloudAssistant/Pusher/capture/AudioCapture.cpp:57-61 | which numbers of samples count as available, in 32-bit arithmetic |
| MediaQueues.RequestAvailable | ECloudAssistant/Pusher/capture/AudioCapture.cpp:63-74 | the byte request for available samples never wraps around and is always available; it is the samples' size exactly if they fill whole bytes |
| MediaQueues.AudioCapture.Read | ECloudAssistant/Pusher/capture/AudioCapture.cpp:63-74 | reads the samples asked for or none; what is read and what remains is what there was |

## Left out

- Sockets, epoll, WSA errors, clocks and random devices: parameters.
- Threads and locks: every handler or locked operation is one step, and a lock that is tried is taken.
- Packet framing of the signalling protocol, and mouse and keyboard forwarding with the connection kept for it: commands are steps.
- The truncation of codes and addresses to fixed-size packet fields, and the address that a failure packet still carries when it follows a success packet of the same answer.
- SigConnections.SigConnection.DoCreateStream: walks the partner list as it was at the start; the code erases from the list it iterates over, which has no defined meaning.
- SigConnections.SigConnection.Clear: a connection that lists itself is excluded; the invariant says there is none.
- SigConnections.SigConnection.HandleDeleteStream: as Clear, a connection that lists itself is excluded.
- ChunkDelivery.RoundTrip: messages are not empty and the chunk size stays as it is; ChunkWoken and ChunkSegments are about the other cases, one at a time. Handlers leave the parser alone.
- ChunkSegments.SegmentsRoundTrip: the announcement is one chunk under both sizes; sizes below four, which this program does not use, are not covered.
- ChunkDelivery.TimestampsArrive: differences are below the extended range; the code does not add extended differences as the standard says.
- Chunks of format 3 that start a new message: the code does not follow the standard there.
- RtmpChunkWriter.CreateChunk: a buffer that passes the writer's check and is too small for the chunks is excluded, as writing behind a buffer has no defined meaning; FitsExactly says when the caller's is not.
- RtmpChunkWriter.SendRtmpChunks: the same case is excluded.
- RtmpReadLoop.OnRead: runs that are meaningless in C++ are excluded (a chunk-size message shorter than four bytes, an input chunk size of zero).
- The meaning of RTMP commands and status texts: a handler is any function of the messages so far.
- AmfRoundTrip.RoundTrip: texts and keys are below 65536 bytes, as long strings are encoded but not decoded, and the keys of an object are distinct, as in a map.
- AmfRoundTrip.DecodesExactly: as RoundTrip, for texts and keys below 65536 bytes.
- ECMA arrays as sent, whose decoded size does not count their four-byte length, and truncated AMF input: the decoder's behaviour is modelled, nothing is promised about it.
- AmfCodec.AmfEncoder.EncodeString: buffer sizes do not wrap around at 32 bits.
- TimerQueues.TimerQueue.HandleTimerEvent: callbacks do not add or remove timers, and the loop is run where it ends.
- The dispatch of collected events to channels, and the limit on the number of sockets in a set.
- WritePath.BufferWriter.Append: queued data is a value; a caller that writes to shared data while it is queued is not modelled.
- MediaSessions.RtmpSink.HandleDeleteStream: the removal from the session comes later, by a timer, and is RemoveSink; the parser's table that is cleared as well is RtmpReadLoop's.
- Metadata fan-out and client counts of a session: easier copies of the media fan-out.
- MediaQueues.AudioBuffer.Read: sizes above 2^31, whose return value would turn negative.
- The 16- and 24-bit little-endian helpers, which nothing modelled uses.
- Load balancing, login and database, codecs, capture devices, drawing and the user interface: foreign calls or easy claims.
