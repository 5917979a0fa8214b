# Verified model of nxweb's engines

nxweb is an event-driven HTTP server written in C. This project models the stateful engines it is
built from and proves what each of them promises, for all inputs, all schedules and all runs.
`dafny verify dfyconfig.toml` checks everything.

| part | files |
|---|---|
| chunked transfer coding, both ways | `ChunkedGrammar`, `ChunkedDecoder`, `ChunkedEncoder`, `ResponseBody`, `ResponseWriter` |
| ring buffer, and a buffered response end to end | `RingBuffer`, `BufferedResponse` |
| server protocol of one connection | `RequestBody`, `ReplyOrder`, `ServerProtocol` |
| hash table | `PackedFlags`, `ProbeTable`, `AlignHash` |
| memory cache | `LinkedList`, `Cache` |
| hand-off to worker threads | `WorkerQueue`, `Workers` |
| allocators | `NxBuffer`, `Pool` |
| event loop | `TimerQueues`, `PubSub`, `StreamEvents` |
| streamer | `Streamer` |
| JSON | `JsonStrings`, `JsonParser`, `JsonText`, `JsonLaws`, `JsonInPlace`, `JsonDocument` |
| SHA-1 | `Sha1`, `Sha1Example` |
| shared | `Octets`, `Sequences` |

Main results:

- Whatever a producer offers and whatever part of each write a socket takes, the octets sent are
  always a prefix of a chunked encoding, the peer can decode exactly what was accepted, and a response
  declared complete decodes to the whole stream however the network cuts it
  (`ResponseBody.WireIsEncoding`, `ResponseBody.CompleteResponseDecodes`); the ring buffer keeps the
  contract the encoder asserts (`BufferedResponse.FinishedResponseArrives`).
- The decoder cannot notice fragmentation, and its language is characterised exactly
  (`ChunkedDecoder.FragmentationIsInvisible`, `ChunkedDecoder.AcceptsExactly`).
- The hash table with its in-place rehash refines a finite map (`AlignHash.Rehash`,
  `AlignHash.Table.Set`), and the cache on top of it keeps table, list and reference counts in
  agreement (`Cache.Cache.Unref`, `Cache.Cache.Try`, `Cache.Cache.Store`).
- In every interleaving of net thread and workers a response starts only after its own job has run
  once, no wake-up is lost, no idle worker is forgotten, no worker is stuck, the spin ends, and from every state every
  unanswered job can still be run and answered (`Workers.ReplyFollowsOwnJob`, `Workers.NoLostWakeUp`,
  `Workers.IdleWorkersAreQueued`, `Workers.NoWorkerIsStuck`, `Workers.SpinEnds`, `Workers.EveryJobCanBeAnswered`).
- On every run of the server protocol only the timer of the current state is armed and never twice;
  what the socket has taken is one whole reply for each answer the application gave, in order, and a
  part of the one under way: 100 Continue if one was begun, then that answer's headers, then the body,
  which when it is through is all the data offered for it or a chunked encoding of that data
  (`ServerProtocol.Run`, `ServerProtocol.WireOfEveryRun`, `ReplyOrder.SentInOrder`,
  `ReplyOrder.OneAnswerEach`, `ReplyOrder.EntireDecodes`). From every state at most
  four stimuli bring it back to waiting for a request (`ServerProtocol.BackToWaiting`).
- The reader of a request body is given what the octets fed to the decoder decode to and is told the end
  exactly when they are a complete body, whatever room it has and however they arrive; a well-formed
  chunked body reaches it as its payload unless octets overtake others, see below
  (`RequestBody.ReaderHasDecoded`, `RequestBody.ChunkedArrives`, `ServerProtocol.RequestBodyIsRead`).
- Event loop: no readiness is lost, messages arrive once and in order, every due timer goes off once
  (`StreamEvents.ApplyKeeps`, `PubSub.Loop.ProcessOne`, `TimerQueues.Timers.Process`).
- JSON: every RFC 8259 text of a tree, handed over in a buffer, is parsed in place to that tree, whose
  strings and keys then lie NUL-terminated where its nodes point; escapes, comments and numbers mean
  what they should (`JsonDocument.ParseDocument`, `JsonText.TextIsRead`, `JsonInPlace.Parse`,
  `JsonLaws.LetterEscapes`, `JsonLaws.CharacterEscapes`).
- SHA-1 is that of FIPS PUB 180-1 for every split of the message (`Sha1.Context.Result`,
  `Sha1Example.DigestOfAbc`).

Where the code does less than one would expect, the exact condition is proved instead:

- The decoder also takes an empty size line for a last chunk: an accepted text is one of RFC 7230 exactly
  if its last size has digits (`ChunkedDecoder.StrictUnlessEmpty`, `ChunkedDecoder.EmptyLinesAccepted`).
- Octets of a chunked request body reach the reader out of order if octets that came along with the
  headers do not fit and decoding makes room again; the octets decoded stay in order exactly if what is
  left waiting and what is taken from the socket can be exchanged (`RequestBody.OneKeepsOrder`,
  `RequestBody.OvertakesWhen`, `RequestBody.Overtaken`).
- The reader of a body of known length is given octets from behind it exactly if one of its calls goes
  beyond the end: what came along with the headers does, as far as there is room for it, or it does not
  reach the end and there is room beyond it for what has arrived. A reader that never has more room than
  is due gets the body and nothing else; the server's own memory buffer offers one octet too much at
  times (`RequestBody.SurplusWhen`, `RequestBody.SurplusOverCalls`, `RequestBody.BufferedSurplus`,
  `RequestBody.Surplus`).
- Octets that come along with a request and are not part of its body, a further request say, have no
  influence on anything that follows (`ReplyOrder.LeftoverIsLost`, `ReplyOrder.SecondRequestIsLost`).
- Insertion into the hash table is refused exactly when a table of 2^31 buckets is full, because the
  doubled size wraps to zero; a table comes to it by insertions alone, and still refuses when all its
  entries have been deleted again (`AlignHash.Table.Set`, `AlignHash.FillUp`,
  `AlignHash.RefusedThoughEmpty`).
- An object allocated after growth lies above the stream for all sizes exactly if the chunk had a
  capacity of at least 33 octets; the server gives 5120 (`NxBuffer.AlignmentSlack`).
- The relinking assertion in stream delivery fails exactly if the pair is ready after each of the fifty
  callbacks and their calls emit its event with no disconnection behind; a plain call that sets an
  output stream ready which is so already is enough, and callbacks that only take readiness away from
  their own pair never do it (`StreamEvents.Loop.Deliver`, `StreamEvents.RepeatedReadyAborts`,
  `StreamEvents.QuietNeverAborts`).
- Processing timers terminates because a timer just set is not due. That is so exactly for timeouts
  beyond the slack of a quarter of a second; within it, a callback that sets its timer again keeps the
  loop turning for ever (`TimerQueues.FreshTimerDue`, `TimerQueues.Timers.Refire`).
- A final node of a streamer completes without the end being passed on exactly if all that is left is
  its end and the next stream is not ready (`Streamer.Streamer.Write`, `Streamer.EndUnsent`); a streamer
  closed behind a completed last node does not pass its end on by itself (`Streamer.LateClose`,
  `Streamer.Streamer.DoWrite`).
- A streamer skips nodes exactly if a node is added while the current one is complete and not the last,
  which takes a node added behind a final one before. Without skips the order is kept; with one it is kept
  exactly as long as what is passed on begins like the streams skipped (`Streamer.Streamer.AddNode`,
  `Streamer.OutIsPrefix`, `Streamer.SkipKeepsOrder`, `Streamer.LateAdd`).
- A JSON text with a number is rejected if `errno` was ERANGE before the call, since the code does not
  reset it (`JsonText.TextIsRead`).

## Model

| member | source | states |
|---|---|---|
| ChunkedGrammar.HexDigits | src/lib/http_utils.c:535-541 | the digits of sizes are 0 to 9 and the letters A to F in both cases, each with its value, and nothing else |
| ChunkedGrammar.SampleBody | src/lib/http_utils.c:503-562 | a body of one chunk, written out: size, line end, data, line end, zero and two line ends |
| ChunkedDecoder.FragmentationIsInvisible | src/lib/http_utils.c:498-565 | feeding any list of fragments one after the other has the same status, output and final fields as feeding their concatenation at once |
| ChunkedDecoder.DecodesWellFormed | src/lib/http_utils.c:498-565 | every body of the grammar (non-empty chunks that fit the signed counter, a last chunk of zeros) is decoded to its payload, and completion is reported at its last LF |
| ChunkedDecoder.MoreBeforeLastOctet | src/lib/http_utils.c:524-532 | no proper prefix of a well-formed body is reported complete or bad |
| ChunkedDecoder.FragmentsDecode | src/lib/http_utils.c:498-565 | for every cut of a well-formed body into fragments, outputs concatenate to the payload and completion comes in the fragment that holds the last LF |
| ChunkedDecoder.AcceptedIsWellFormed | src/lib/http_utils.c:503-562 | whatever is accepted is a body of the grammar, except that an empty size text passes for a last chunk |
| ChunkedDecoder.AcceptsExactly | src/lib/http_utils.c:503-562 | the accepted language, both directions |
| ChunkedDecoder.BodyUnique | src/lib/http_utils.c:503-562 | a text is a body followed by something in one way only |
| ChunkedDecoder.StrictUnlessEmpty | src/lib/http_utils.c:535-541 | an accepted text is one of the strict grammar exactly if its last size text is not empty |
| ChunkedDecoder.EmptyLinesAccepted | src/lib/http_utils.c:535-541 | two empty lines are accepted as a complete body, and are none of the strict grammar |
| ChunkedDecoder.Decoder.constructor | src/lib/http_utils.c:498-502 | a new decoder is in the state that expects a size line |
| ChunkedDecoder.Decoder.Octet | src/lib/http_utils.c:519-559 | the single-octet cases of the switch do one step of the automaton |
| ChunkedDecoder.Decoder.Data | src/lib/http_utils.c:506-518 | the data case takes what is at hand of the chunk and counts it down |
| ChunkedDecoder.CloseGap | src/lib/http_utils.c:554-558 | the move towards the front closes the gap of a size line and loses no unread octet |
| ChunkedDecoder.Decoder.Decode | src/lib/http_utils.c:498-565 | the in-place loop equals the automaton on the old contents; decoding mode leaves the data at the front, monitoring mode leaves the buffer alone with the same status and fields |
| ChunkedEncoder.Hex4Value | src/include/nxweb/misc.h:135-145 | the four-digit size text has the value of the size |
| ChunkedEncoder.PlanKeeps | src/lib/http_utils.c:624-684 | planning, sending any part and advancing keeps the encoder consistent |
| ChunkedEncoder.ChunkIs | src/lib/http_utils.c:645-668 | data goes into the chunk announced before, up to its end, or else all of it makes a new chunk of at most 65535 octets |
| ChunkedEncoder.ChunkKeeps | src/lib/nxd_http_server_proto.c:411-425 | header and data of a chunk, each sent in part, keep the encoder consistent and account for what was accepted |
| ChunkedEncoder.WriteOnWire | src/lib/nxd_http_server_proto.c:411-436 | one call of the write path extends the wire by chunks and parts of a chunk whose data is exactly what was accepted |
| ResponseWriter.WriteHex | src/include/nxweb/misc.h:137-145 | the loop that writes digits from the last one back writes the padded hexadecimal text and nothing else |
| ResponseWriter.Encoder.constructor | src/lib/http_utils.c:615-622 | the initial fields, with the line end of the first header counted as sent |
| ResponseWriter.Encoder.EncodeStream | src/lib/http_utils.c:624-675 | the branches of the encoder compute the plan that the reference function gives |
| ResponseWriter.Encoder.EncodeAdvance | src/lib/http_utils.c:677-684 | advancing moves the position and ends the chunk just behind its last octet |
| ResponseWriter.SendHeader | src/lib/nxd_http_server_proto.c:416-420 | one encoder-driven write to a socket that takes any part of it |
| ResponseWriter.SendChunk | src/lib/nxd_http_server_proto.c:411-425 | header and data of one chunk through a socket that takes any part of each |
| ResponseWriter.WriteOrSendfile | src/lib/nxd_http_server_proto.c:405-457 | the chunking write path on octets in memory equals the reference function for the schedule of octets the socket accepts of what it is given, which is the header, behind all of it the chunk's data, and behind all of that the next header or the end; it writes nothing if the next stream is missing or not ready; the response is declared complete exactly when all data was taken at end of stream and the encoder is complete |
| ResponseBody.Run | src/lib/nxd_http_server_proto.c:405-457 | after any producer calls and any partial writes the encoder is consistent with the offers made |
| ResponseBody.RunDescribed | src/lib/nxd_http_server_proto.c:405-457 | after every run the wire is whole chunks and a part of one more, carrying exactly the accepted data |
| ResponseBody.WireDecodes | src/lib/http_utils.c:615-688 | at any time a receiver of the octets on the wire has decoded exactly the data in them, and sees completion exactly when the encoder does |
| ResponseBody.ReceiverHasAcceptedData | src/lib/nxd_http_server_proto.c:405-457 | after every run a receiver of the octets sent has decoded exactly the data accepted, and sees completion exactly when the encoder does |
| ResponseBody.WireIsEncoding | src/lib/http_utils.c:615-688 | after every run the octets sent are a prefix of a chunked encoding of the stream, and a whole one once the encoder is complete |
| ResponseBody.CompleteResponseDecodes | src/lib/nxd_http_server_proto.c:453-457 | a complete response decodes to the stream however it is cut into fragments |
| ResponseBody.RoomyCallMakesProgress | src/lib/nxd_http_server_proto.c:411-436 | a call with room enough takes data or finishes the encoding |
| ResponseBody.LastCallFinishes | src/lib/nxd_http_server_proto.c:411-436 | from every state of the encoder a last call with what the announced chunk lacks, and room, ends the encoding |
| RingBuffer.RBuffer.constructor | src/include/nxweb/nxd.h:118-124 | a new buffer is empty, not at its end, with its ready flags right |
| RingBuffer.RBuffer.WriteRoom | src/include/nxweb/nxd.h:134-138 | the writable run is free space, up to the buffer's end or all there is, empty exactly when the buffer is full, and never empty when the writer is called |
| RingBuffer.RBuffer.ReadRun | src/include/nxweb/nxd.h:140-142 | the readable run is the oldest unread part of the stream, up to the buffer's end or all that is held, empty exactly when nothing is held |
| RingBuffer.RBuffer.ReadEof | src/include/nxweb/nxd.h:143 | the end is flagged exactly when it has arrived and the offered run is all that remains |
| RingBuffer.RBuffer.Write | src/lib/nxd_buffer.c:197-212 | writing appends to the FIFO, keeps the ready flags right and never shrinks the run already offered |
| RingBuffer.RBuffer.End | src/lib/nxd_buffer.c:141-145 | the end of the stream makes the reader ready even when nothing is held |
| RingBuffer.RBuffer.Read | src/lib/nxd_buffer.c:177-195 | reading removes the oldest octets, keeps the ready flags right, and the next offer ends no earlier |
| RingBuffer.WriteShape | src/lib/nxd_buffer.c:197-212 | the octets held after a write are those before it and the data, also across the wrap |
| RingBuffer.ReadShape | src/lib/nxd_buffer.c:177-195 | the octets held after a read are those before it without the first ones, also across the wrap |
| BufferedResponse.RunGrows | src/lib/nxd_http_server_proto.c:405-457 | appending to a stream whose end has not been offered does not change what earlier calls did |
| BufferedResponse.Response.Write | src/lib/nxd_buffer.c:120-140 | a producer may write while a response is being sent |
| BufferedResponse.Response.DoWrite | src/lib/nxd_buffer.c:149-163 | the ring buffer keeps the contract the encoder asserts, and each call is one more call of the run |
| BufferedResponse.PeerHasTakenData | src/lib/nxd_buffer.c:149-163 | at any time the peer can decode exactly the octets that left the ring buffer |
| BufferedResponse.FinishedResponseArrives | src/lib/nxd_buffer.c:149-163 | a finished response reached the peer as the whole stream, however the network cut it |
| RequestBody.ReaderHasDecoded | src/lib/nxd_http_server_proto.c:304-390 | over any calls the reader is given what the octets fed to the decoder decode to, and is told the end exactly when they are a complete chunked body, or at least the known length |
| RequestBody.OvertakesWhen | src/lib/nxd_http_server_proto.c:326-356 | octets of the socket go before octets that came with the headers exactly if the body is chunked, the latter do not fit, what fits is not a complete or malformed body, decoding makes it fewer, and the socket has octets |
| RequestBody.OneKeepsOrder | src/lib/nxd_http_server_proto.c:326-382 | a call keeps the octets in the order of their arrival exactly if what it leaves waiting and what it takes from the socket can be exchanged; so it does unless octets overtake others |
| RequestBody.KeepsOrder | src/lib/nxd_http_server_proto.c:326-382 | as long as nothing overtakes, the decoder is fed the octets in the order of their arrival |
| RequestBody.ChunkedArrives | src/lib/nxd_http_server_proto.c:299-390 | a well-formed chunked body, whatever follows it, reaches the reader as its payload, with the end told at its last octet, if nothing overtakes |
| RequestBody.PlainArrives | src/lib/nxd_http_server_proto.c:299-390 | a body of known length reaches the reader in order, with the end told as soon as it is all there |
| RequestBody.SurplusWhen | src/lib/nxd_http_server_proto.c:326-381 | a call gives the reader more than the body exactly if it goes beyond the end, which can be told before it; never if there is no more room than is due |
| RequestBody.SurplusOverCalls | src/lib/nxd_http_server_proto.c:299-390 | over any calls the reader is given more than the body exactly if one of them went beyond its end; otherwise it has the body and nothing else when the end is told |
| RequestBody.BufferedSurplus | src/lib/nxd_buffer.c:38-42 | the server's memory buffer takes at most one octet from behind the body, exactly if its room is one larger than what is due, the octet is there, and what came with the headers does not complete the body |
| RequestBody.Overtaken | src/lib/nxd_http_server_proto.c:326-382 | a chunk of five octets, three of them received with the headers, of which the reader gets four and a line end |
| RequestBody.Surplus | src/lib/nxd_http_server_proto.c:356-381 | a reader of a two-octet body is given a third octet that follows it |
| ReplyOrder.RespondAgrees | src/lib/nxd_http_server_proto.c:591-635 | an answer is accepted exactly while headers or a body are received or the request is handled; its headers become the text under way, behind a pending 100 Continue; HEAD, "not modified" and empty answers go without a body |
| ReplyOrder.HeardAgrees | src/lib/nxd_http_server_proto.c:133-212 | header text begins a request, with a 100 Continue exactly if it was asked for and no body octets came along, or an error reply |
| ReplyOrder.ContinueAgrees | src/lib/nxd_http_server_proto.c:235-253 | a 100 Continue goes out in any parts, and the headers follow only behind all of it |
| ReplyOrder.HeadersAgree | src/lib/nxd_http_server_proto.c:259-273 | headers go out in any parts; behind all of them the body follows, or the reply is through |
| ReplyOrder.WriteEnds | src/lib/nxd_http_server_proto.c:405-457 | a write ends the response exactly if it flags the end, all its data is taken, and a chunked encoding is complete; plain data goes out as it is as far as the socket has room, and nothing goes out if it takes nothing |
| ReplyOrder.ProduceAgrees | src/lib/nxd_http_server_proto.c:392-460 | a write adds the data taken, and what was offered, to the reply, and ends it only when the end was flagged and all that was offered is taken |
| ReplyOrder.CarriesMore | src/lib/nxd_http_server_proto.c:405-446 | the octets of a body stay the data taken, or chunks and a part of a chunk holding that data |
| ReplyOrder.CarriesAll | src/lib/nxd_http_server_proto.c:453-457 | a body declared complete is all the data offered for it, or a whole chunked body with that data |
| ReplyOrder.BodyDecodes | src/lib/nxd_http_server_proto.c:405-446 | at any time the peer can decode exactly the data taken for the body under way |
| ReplyOrder.EntireDecodes | src/lib/nxd_http_server_proto.c:453-457 | a chunked reply that is through decodes to all the data offered, however the network cuts it |
| ReplyOrder.NextAgrees | src/lib/nxd_http_server_proto.c:89-635 | every event keeps the octets on the wire in agreement with the ledger of replies that its notes are booked into |
| ReplyOrder.SentInOrder | src/lib/nxd_http_server_proto.c:89-635 | after every run the wire is the replies that are through, and of the one under way a part of 100 Continue if due, headers, and body, in this order; a reply that is through has no body for HEAD, "not modified" and empty answers, else all that was offered up to its end, as it is or as a whole chunked body |
| ReplyOrder.OneAnswerEach | src/lib/nxd_http_server_proto.c:591-635 | after every run replies and accepted answers go together one by one, in order, none twice and none left out |
| ReplyOrder.LeftoverIsLost | src/lib/nxd_http_server_proto.c:174-199 | what is left of the octets that came along with a request changes nothing that the connection does after it |
| ReplyOrder.SecondRequestIsLost | src/lib/nxd_http_server_proto.c:174-199 | of two requests that arrive in one piece, the second is never heard of |
| ServerProtocol.Connect | src/lib/nxd_http_server_proto.c:658-680 | the initial state, with exactly the keep-alive timer armed |
| ServerProtocol.StartSending | src/lib/nxd_http_server_proto.c:591-635 | refused unless a request is received or handled; otherwise the write timer is the only one armed and the output is ready |
| ServerProtocol.BeginResponse | src/lib/nxd_http_server_proto.c:599-635 | the timer set is not armed already; a 100 Continue under way goes first; no body follows for HEAD, "not modified" and empty answers |
| ServerProtocol.RequestComplete | src/lib/nxd_http_server_proto.c:122-131 | the reply is through, no timer is armed, both body streams are disconnected and the cleanup is asked for |
| ServerProtocol.Cleanup | src/lib/nxd_http_server_proto.c:89-120 | back to waiting, with exactly the keep-alive timer armed, which was not before, and input ready if the connection stays open |
| ServerProtocol.ReadHeaders | src/lib/nxd_http_server_proto.c:133-212 | from partial, unusable or whole headers to the next state; from a waiting connection, or if it had not run out, that state's own timer is armed |
| ServerProtocol.BeginRequest | src/lib/nxd_http_server_proto.c:138-145 | the first octets of a request swap the keep-alive timer for the read timer |
| ServerProtocol.ReceiveRequest | src/lib/nxd_http_server_proto.c:175-199 | a chunked request or one with a length has its body received, any other is handled; 100 Continue is begun exactly when asked for and no body octets came along |
| ServerProtocol.ReadRequestBody | src/lib/nxd_http_server_proto.c:304-390 | the read timer is restarted or, at the end of the body, off; the body moves on as its own module says, and nobody is left waiting |
| ServerProtocol.RequestBodyIsRead | src/lib/nxd_http_server_proto.c:304-390 | the reads of a connection behind a request make the story of its body, and the request is handled from when the reader is told the end |
| ServerProtocol.PassOn | src/lib/nxd_http_server_proto.c:213-227 | however often the reader reads, data and reader readiness hand over to each other |
| ServerProtocol.SendContinue | src/lib/nxd_http_server_proto.c:235-253 | a 100 Continue goes out in any parts and the response follows only behind all of it |
| ServerProtocol.SendHeaderText | src/lib/nxd_http_server_proto.c:259-273 | header text goes out in any parts; a reply without a body is complete behind it |
| ServerProtocol.WriteBody | src/lib/nxd_http_server_proto.c:392-460 | the reply is through exactly if the write flagged the end, all its data was taken and a chunked encoding is complete; the write timer is restarted or off, and a socket not ready makes the output wait for it |
| ServerProtocol.SendBody | src/lib/nxd_http_server_proto.c:275-291 | the producer is called when ready and writes as often as it likes, and either side is left listening |
| ServerProtocol.SendResponse | src/lib/nxd_http_server_proto.c:255-297 | the branch that reports a wrong state is not reached; the write timer is started anew, headers go out and behind all of them the producer's writes |
| ServerProtocol.DoWrite | src/lib/nxd_http_server_proto.c:229-297 | a call at any moment the loop makes it keeps every invariant and does what the line does: 100 Continue, behind all of it headers, behind all of them body |
| ServerProtocol.Expire | src/lib/nxd_http_server_proto.c:482-501 | a timer that runs out leaves the invariants in place and sends nothing |
| ServerProtocol.ConnectReader | src/lib/nxd_http_server_proto.c:637-647 | connecting a reader of the request body keeps the invariants and sends nothing |
| ServerProtocol.Step | src/lib/nxd_http_server_proto.c:89-635 | every callback and every call of the application keeps the invariants and moves the line by exactly the events seen |
| ServerProtocol.Run | src/lib/nxd_http_server_proto.c:89-635 | driven by any stimuli, a connection never arms a timer twice; in every state only the timer of that state is armed, and it is unless it ran out, nobody waits for a wake-up that cannot come, and at most one cleanup is pending |
| ServerProtocol.WireOfEveryRun | src/lib/nxd_http_server_proto.c:89-635 | on every such run the wire is whole replies, one for each answer in order, each with its entire body, and a part of the one under way |
| ServerProtocol.SetOne | src/lib/nxd_http_server_proto.c:89-120 | setting a timer arms that one, unsetting disarms it, and neither touches another |
| ServerProtocol.BackToWaiting | src/lib/nxd_http_server_proto.c:89-635 | no connection is stuck: from every state at most four stimuli bring it back to waiting for a request, if the producer of a body that is due is connected |
| PackedFlags.ViewUpdate | src/include/nxweb/deps/ulib/alignhash_tpl.h:55-61 | changing the two bits of one bucket leaves the flags of all others |
| PackedFlags.Tests | src/include/nxweb/deps/ulib/alignhash_tpl.h:55-57 | the shift and mask tests tell the flag of the bucket |
| PackedFlags.SetDel | src/include/nxweb/deps/ulib/alignhash_tpl.h:61 | marks one bucket deleted and no other |
| PackedFlags.ClearEmpty | src/include/nxweb/deps/ulib/alignhash_tpl.h:59 | clears the empty mark of one bucket and no other |
| PackedFlags.ClearBoth | src/include/nxweb/deps/ulib/alignhash_tpl.h:60 | makes one bucket live and no other |
| PackedFlags.AllEmpty | src/include/nxweb/deps/ulib/alignhash_tpl.h:157-161 | the fill pattern marks every bucket empty |
| ProbeTable.ProbeMeets | src/include/nxweb/deps/ulib/alignhash_tpl.h:136-141 | a probe that finds the key is at its one place |
| ProbeTable.ProbeMisses | src/include/nxweb/deps/ulib/alignhash_tpl.h:136-142 | a probe that reaches an empty bucket proves the key absent |
| ProbeTable.ProbeEnds | src/include/nxweb/deps/ulib/alignhash_tpl.h:136-141 | with an empty bucket in the table a probe ends before it comes round |
| ProbeTable.LiveCount | src/include/nxweb/deps/ulib/alignhash_tpl.h:225 | the number of live buckets is the number of entries |
| ProbeTable.Insert | src/include/nxweb/deps/ulib/alignhash_tpl.h:271-281 | an insertion at a probe place, fresh or deleted, keeps every key reachable and unique |
| ProbeTable.Remove | src/include/nxweb/deps/ulib/alignhash_tpl.h:290-293 | a deletion keeps every other key reachable |
| ProbeTable.RoomToMove | src/include/nxweb/deps/ulib/alignhash_tpl.h:193-195 | during a rehash an empty bucket is left for the entry in hand |
| ProbeTable.PickUp | src/include/nxweb/deps/ulib/alignhash_tpl.h:181-186 | taking an entry in hand loses nothing |
| ProbeTable.PutDown | src/include/nxweb/deps/ulib/alignhash_tpl.h:202-205 | putting the entry in hand down completes the chase and loses nothing |
| ProbeTable.Exchange | src/include/nxweb/deps/ulib/alignhash_tpl.h:196-200 | swapping the entry in hand with a displaced one loses nothing |
| ProbeTable.Moved | src/include/nxweb/deps/ulib/alignhash_tpl.h:180-209 | after the loop the table with the new flags holds the same map |
| AlignHash.FindEmpty | src/include/nxweb/deps/ulib/alignhash_tpl.h:190-194 | the probe for an empty bucket ends and all buckets passed are filled |
| AlignHash.DisplaceOne | src/include/nxweb/deps/ulib/alignhash_tpl.h:188-206 | one round of the chase places one more entry |
| AlignHash.Displace | src/include/nxweb/deps/ulib/alignhash_tpl.h:187-207 | the chase terminates and places the entry and all it displaces |
| AlignHash.Rehash | src/include/nxweb/deps/ulib/alignhash_tpl.h:180-209 | the in-place rehash preserves the map: every live entry is on its own probe path in the new table |
| AlignHash.RehashInto | src/include/nxweb/deps/ulib/alignhash_tpl.h:157-221 | growth or shrinking of the arrays and the rehash preserve the map |
| AlignHash.DoubledBuckets | src/include/nxweb/deps/ulib/alignhash_tpl.h:235-242 | doubling gives a power of two with room, except that 2^31 buckets wrap to none |
| AlignHash.FillUp | src/include/nxweb/deps/ulib/alignhash_tpl.h:235-243 | setting one key after the other in a new table comes to the refusal at 2^31 buckets, whatever the hash |
| AlignHash.RefusedThoughEmpty | src/include/nxweb/deps/ulib/alignhash_tpl.h:235-294 | after all those keys are deleted again the table holds nothing and still refuses |
| AlignHash.Table.constructor | src/include/nxweb/deps/ulib/alignhash_tpl.h:101-104 | a new table holds the empty map |
| AlignHash.Table.Get | src/include/nxweb/deps/ulib/alignhash_tpl.h:125-145 | finds the bucket of a key exactly if the map has it |
| AlignHash.Table.Resize | src/include/nxweb/deps/ulib/alignhash_tpl.h:147-228 | refused exactly when the entries do not fit under the load factor; otherwise the map is unchanged |
| AlignHash.Table.Grow | src/include/nxweb/deps/ulib/alignhash_tpl.h:235-243 | growth for an insertion fails only at the largest size |
| AlignHash.Table.Probe | src/include/nxweb/deps/ulib/alignhash_tpl.h:244-270 | the insertion place is the key's own bucket, else the last deleted one on its path in front of the first empty one, else that one |
| AlignHash.Table.Set | src/include/nxweb/deps/ulib/alignhash_tpl.h:230-285 | inserts a missing key once, into an empty or a deleted bucket as it tells, reports a present one, and is refused exactly when a table of 2^31 buckets is full |
| AlignHash.Table.Take | src/include/nxweb/deps/ulib/alignhash_tpl.h:271-281 | the counters follow the map and the used buckets |
| AlignHash.Table.PutValue | src/include/nxweb/deps/ulib/alignhash_tpl.h:328 | setting a value overwrites one entry |
| AlignHash.Table.Delete | src/include/nxweb/deps/ulib/alignhash_tpl.h:287-294 | removes the entry of a live bucket and nothing otherwise |
| LinkedList.List.PushFront | src/lib/cache.c:53-60 | linking at the head prepends |
| LinkedList.List.PushBack | src/lib/nx_event.c:36-48 | linking at the tail appends |
| LinkedList.List.Unlink | src/lib/cache.c:62-69 | unlinking removes the node from any place and clears its links |
| LinkedList.List.Bypass | src/lib/cache.c:63-68 | the neighbours and the ends of the list pass the node by |
| LinkedList.List.PopFront | src/lib/nx_pool.c:100-107 | taking the first node off |
| LinkedList.List.IsLinkedMeans | src/lib/cache.c:51 | the test of a node's own links tells whether it is in the list |
| Cache.AgreeRemove | src/lib/cache.c:102-104 | taking a record out of table and list keeps them in agreement |
| Cache.AgreeInsert | src/lib/cache.c:230-234 | adding a record to table and list keeps them in agreement |
| Cache.AgreeReorder | src/lib/cache.c:149-152 | moving a record in the list keeps them in agreement |
| Cache.TrimLru | src/lib/cache.c:93-111 | trimming the list keeps every held record, takes one only with all the less recently used ones that nobody holds, and takes no more than needed |
| Cache.Cache.constructor | src/lib/cache.c:71-75 | an empty cache |
| Cache.Cache.FindVictim | src/lib/cache.c:95-96 | the least recently used record without holders, or none |
| Cache.Cache.Evict | src/lib/cache.c:97-105 | a record without holders leaves table and list and is freed once |
| Cache.Cache.CheckSize | src/lib/cache.c:93-111 | above 500 records those that nobody holds go, the least recently used first, until 500 are left or all are held; each is freed once, and what is left keeps its order |
| Cache.Cache.Release | src/lib/cache.c:116-117 | a holder returns its reference; counts stay equal to the references handed out |
| Cache.Cache.Discard | src/lib/cache.c:119-130 | a record that lost its last holder is freed once and is then in neither table nor list |
| Cache.Cache.Unref | src/lib/cache.c:113-134 | a record is freed with its last holder exactly if it is expired or unlinked; else only the size check takes records, the least recently used ones without holders; table and list agree |
| Cache.Cache.Promote | src/lib/cache.c:149-152 | the record found becomes the most recently used, and the others keep their order |
| Cache.Cache.RemoveExpired | src/lib/cache.c:175-183 | an expired record leaves table and list, and is freed exactly if it has no holder |
| Cache.Cache.Serve | src/lib/cache.c:148-169 | a fresh record is served with one more reference, or answered not modified |
| Cache.Cache.Try | src/lib/cache.c:136-187 | hit, not modified, revalidate or miss, each exactly under its condition on the times of the record and the request; a record served becomes the most recently used one, a record given up leaves the list; a revalidated record's expiry is renewed and no other's, with all invariants kept |
| Cache.Cache.Store | src/lib/cache.c:229-263 | the response is served from the record stored first under its key; refused only by a full table; a stored record goes to the head of the list and the least recently used ones without holders go above 500; records are freed once and only without holders |
| WorkerQueue.PopContent | src/include/nxweb/nx_queue_tpl.h:52-59 | advancing the head removes the first queued item |
| WorkerQueue.WriteContent | src/include/nxweb/nx_queue_tpl.h:61-64 | writing the free cell does not change what is queued |
| WorkerQueue.PushContent | src/include/nxweb/nx_queue_tpl.h:66 | advancing the tail appends the item in the free cell |
| WorkerQueue.PopKeepsRoom | src/include/nxweb/nx_queue_tpl.h:43-45 | an unlocked pop never makes a queue found not full appear full |
| WorkerQueue.EmptyOrFull | src/include/nxweb/nx_queue_tpl.h:39-45 | the queue is found empty or full exactly if nothing is in it or all cells but one are taken |
| Workers.StepInv | src/lib/nx_workers.c:110-192 | every step of every thread keeps the invariant of the hand-off |
| Workers.RunInv | src/lib/nx_workers.c:110-192 | the invariant holds in every state of every interleaving |
| Workers.ReplyFollowsOwnJob | src/lib/http_server.c:394-408 | a response starts only after its own job ran exactly once and was not answered, whichever job the wake-up came from |
| Workers.JobsRunOnce | src/lib/nx_workers.c:157-192 | every started job runs at most once and is answered at most once, never before it ran |
| Workers.QueuedWorkersAreFree | src/lib/nx_workers.c:178-186 | queued workers are distinct, have no job, and are not the one in hand |
| Workers.NoLostWakeUp | src/lib/nx_workers.c:171-176 | while a finished job's connection waits, a wake-up for it is on its way |
| Workers.IdleWorkersAreQueued | src/lib/nx_workers.c:110-192 | in every state of every interleaving a worker that waits without a job, is not told to stop and is not in the net thread's hand is in the queue; a new worker is made only if there is no such worker |
| Workers.WorkersEndOnlyIf | src/lib/nx_workers.c:157-192 | a worker ends only if it was told to stop, the server shuts down, or 127 workers are queued already |
| Workers.NoWorkerIsStuck | src/lib/nx_workers.c:157-192 | a worker that has not ended can take a step, unless it waits for a job, or for the mutex; and then the worker that has the mutex can |
| Workers.SpinEnds | src/lib/http_server.c:399-400 | whatever connection the net thread waits for, the worker alone sets its flag within five steps nothing can block |
| Workers.EveryJobCanBeAnswered | src/lib/nx_workers.c:110-192 | from every state of every interleaving an unanswered job has a continuation in which it is run once and answered, also behind spurious wake-ups and after a shutdown |
| NxBuffer.AlignmentSlack | src/lib/nx_buffer.c:138-145 | an object lands above the stream after growth, for all sizes and streams, exactly if the chunk had a capacity of at least 33 octets; below that a size that fails is given |
| NxBuffer.GrowthSuffices | src/lib/nx_buffer.c:138-144 | a new chunk is the least multiple of 16 that is twice as large and has room for the request, the unfinished stream and an eighth more |
| NxBuffer.Buffer.constructor | src/lib/nx_buffer.c:97-103 | an empty buffer in its first chunk |
| NxBuffer.Buffer.Grow | src/lib/nx_buffer.c:137-164 | growth keeps the unfinished stream and releases the old chunk exactly if nothing was handed out of it and it is not the first |
| NxBuffer.Buffer.Put | src/include/nxweb/nx_buffer.h:135-138 | appending in place leaves every octet handed out as it was |
| NxBuffer.Buffer.MakeRoom | src/include/nxweb/nx_buffer.h:111-114 | room is made without changing the unfinished stream, by growth only if there is not enough |
| NxBuffer.Buffer.Append | src/include/nxweb/nx_buffer.h:127-133 | the unfinished stream grows by the data and every range handed out keeps its octets |
| NxBuffer.Buffer.Finish | src/include/nxweb/nx_buffer.h:74-88 | the finished part is handed out as a range of its own |
| NxBuffer.Buffer.Unfinish | src/include/nxweb/nx_buffer.h:90-92 | drops the unfinished stream only |
| NxBuffer.Buffer.AllocObj | src/lib/nx_buffer.c:166-177 | the highest aligned range that fits, clear of the stream and of all ranges handed out, never below the stream pointer; from a new chunk only if there is no room |
| NxBuffer.Buffer.Empty | src/lib/nx_buffer.c:117-129 | releases every chunk but the first, each once |
| NxBuffer.HandOut | src/lib/nx_buffer.c:174-176 | a range from the free space is disjoint from all ranges handed out before |
| Pool.Pool.constructor | src/lib/nx_pool.c:47-58 | all objects of the first chunk are free |
| Pool.Thread | src/lib/nx_pool.c:28-45 | the objects of a new chunk are appended to the free list in order |
| Pool.Pool.Grow | src/lib/nx_pool.c:85-98 | a new chunk of twice the size, at most 1024, with the next number, all of it free |
| Pool.Pool.Alloc | src/lib/nx_pool.c:83-114 | the first free object, or the first of a new chunk if there is none, becomes the only one newly in use; the free list stays exactly the objects not in use, in order |
| Pool.Pool.Free | src/lib/nx_pool.c:116-150 | the object is free again, at the end of the list if it is of the last chunk, and the assertion about chunk numbers holds |
| Pool.OlderChunk | src/lib/nx_pool.c:135 | objects carry the number of their chunk and no number exceeds that of the last chunk |
| Pool.Unthread | src/lib/nx_pool.c:163-168 | unlinking the objects of a chunk one by one leaves the others on the list, in order |
| Pool.Pool.Gc | src/lib/nx_pool.c:152-172 | releases the last chunk exactly if it is wholly free and not the first; objects in use are unchanged, the other free ones keep their order |
| TimerQueues.FreshTimerDue | src/lib/nx_event.c:132 | a timer just set is due exactly if its timeout lies within the slack |
| TimerQueues.Timers.constructor | src/lib/nx_event.c:95-98 | no timer armed |
| TimerQueues.Timers.Advance | src/lib/nx_event.c:207 | the queues stay sorted as the clock moves on |
| TimerQueues.Timers.Set | src/lib/nx_event.c:101-112 | appending keeps the queue sorted, and arms no due timer when timeouts exceed the slack |
| TimerQueues.Timers.Unset | src/lib/nx_event.c:114-125 | removes the timer from its queue and leaves the rest; nothing for a timer not set |
| TimerQueues.Timers.ProcessQueue | src/lib/nx_event.c:132-141 | terminates whatever callbacks set and unset, and leaves no due timer in the queue |
| TimerQueues.Timers.Process | src/lib/nx_event.c:127-143 | every due timer goes off exactly once unless a callback unset it before, no other one does, and none is due afterwards |
| TimerQueues.Timers.Closest | src/lib/nx_event.c:145-154 | the queue whose first timer is the earliest of all, or none exactly if no timer is armed |
| TimerQueues.Timers.Refire | src/lib/nx_event.c:132-141 | a callback that sets its own timer again keeps the loop turning as long as one likes exactly if the timeout is within the slack, and not at all otherwise |
| PubSub.ForWithout | src/lib/nx_event.c:479-484 | unlinking the first event of a subscriber shortens its chain by one and leaves those of others |
| PubSub.HeadIsPending | src/lib/nx_event.c:411-415 | the first event of the queue is the first of its subscriber's chain |
| PubSub.Loop.constructor | src/lib/nx_event.c:545-561 | an empty loop |
| PubSub.Loop.Subscribe | src/lib/nx_event.c:446-454 | adds a subscriber with nothing pending |
| PubSub.Loop.Publish | src/lib/nx_event.c:488-511 | every subscriber of the publisher is sent the data once, behind all earlier messages; nobody else is |
| PubSub.Loop.FreePending | src/lib/nx_event.c:475-485 | each pending event is unlinked and freed once |
| PubSub.Loop.Unsubscribe | src/lib/nx_event.c:456-486 | exactly the events for the subscriber leave the queue; all others keep their order and their chains |
| PubSub.Loop.Deliver | src/lib/nx_event.c:411-423 | the asserted equality holds: the event delivered is the oldest pending one of a subscriber that is still subscribed, and no other subscriber is touched |
| PubSub.Loop.Callback | src/lib/nx_event.c:416-422 | whatever a callback publishes, subscribes and unsubscribes keeps the invariants |
| PubSub.Loop.ProcessOne | src/lib/nx_event.c:156-175 | one round takes the first event, keeps the invariants whatever the callback does, and frees the event once |
| StreamEvents.ApplyKeeps | src/include/nxweb/nx_event.h:363-388 | after every call of the stream API a pair ready on both sides is queued or under delivery, and queued events name the current partner |
| StreamEvents.FlagsByOne | src/include/nxweb/nx_event.h:363-388 | each call sets or clears the one flag it names, whatever the partner's, or changes the two partners, and nothing else |
| StreamEvents.ReadyPairIsQueued | src/include/nxweb/nx_event.h:363-384 | a connected pair set ready on both sides, in any order and among any other calls, and not unset or disconnected, is ready and queued |
| StreamEvents.Loop.SetIn | src/include/nxweb/nx_event.h:363-371 | setting an input stream ready queues its event if its partner is ready |
| StreamEvents.Loop.SetOut | src/include/nxweb/nx_event.h:377-384 | setting an output stream ready queues the event of its partner if that is ready |
| StreamEvents.Loop.Connect | src/lib/nx_event.c:524-534 | connecting two ready streams queues the event, which is not queued before |
| StreamEvents.Loop.Disconnect | src/lib/nx_event.c:536-543 | disconnecting takes the event out of the queue |
| StreamEvents.QueuedByOne | src/include/nxweb/nx_event.h:363-388 | after a call an event is queued exactly if it was and the call does not disconnect it, or the call emits it |
| StreamEvents.QueuedByPlay | src/include/nxweb/nx_event.h:363-388 | after any calls an event that was not queued is so exactly if one of them emitted it and none behind that one disconnected it |
| StreamEvents.Loop.Callback | src/lib/nx_event.c:385 | whatever calls of the API a callback makes, the invariant is kept |
| StreamEvents.Loop.Deliver | src/lib/nx_event.c:372-406 | no readiness is lost by a delivery; for any calls the callbacks make, the relinking assertion fails exactly if the pair is ready after each of the fifty and the calls emit its event and do not disconnect it behind that |
| StreamEvents.QuietNeverAborts | src/lib/nx_event.c:372-406 | callbacks that only take readiness away from their own pair, whatever they do to others, never make the assertion fail |
| StreamEvents.RepeatedReadyAborts | src/include/nxweb/nx_event.h:377-384 | any delivery to a ready pair fails if the last of fifty callbacks sets the ready output stream ready once more |
| StreamEvents.SomeDeliveryAborts | src/lib/nx_event.c:382 | a delivery that fails exists |
| Streamer.OutIsPrefix | src/lib/nxd_streamer.c:60-109 | what was passed on is always a prefix of the streams of the nodes not skipped, in order of addition; of all streams if none was skipped; and, unless nodes were added to a closed streamer, all of them once the end was passed on |
| Streamer.SkipKeepsOrder | src/lib/nxd_streamer.c:145-148 | behind a gap of skipped nodes the order is kept exactly as long as what is passed on begins like the streams from the first skipped node on |
| Streamer.Streamer.constructor | src/lib/nxd_streamer.c:114-121 | an empty streamer |
| Streamer.Streamer.AddNode | src/lib/nxd_streamer.c:132-149 | the node goes last and starts at once if the current one is complete, or there is none, also in a closed streamer; the nodes between the two, if any, are skipped and no others |
| Streamer.Streamer.StartNode | src/lib/nxd_streamer.c:164-171 | only a node that is not complete is started |
| Streamer.Streamer.Start | src/lib/nxd_streamer.c:173-180 | the first node starts; an empty closed streamer becomes ready to pass its end on; no flag else changes |
| Streamer.Streamer.Close | src/lib/nxd_streamer.c:182-200 | the last node becomes final; the end is forced exactly if there is none or it is complete |
| Streamer.Streamer.Write | src/lib/nxd_streamer.c:60-109 | only the current node's data passes; the end passes exactly with the last octets of the final node; that node completes without its end passing exactly if only its end was left and the next stream was not ready; afterwards the current node, if it is not complete, has its own stream or the output ready, so that it is not forgotten |
| Streamer.Streamer.Complete | src/lib/nxd_streamer.c:92-104 | the next node takes over exactly behind the last octet of the current one |
| Streamer.Streamer.DoWrite | src/lib/nxd_streamer.c:27-58 | the assertion that a streamer without a current node was closed holds; the end goes out exactly if there is no current node, or the current one is final and all its source writes with its end is taken; a source that is connected and not ready afterwards is waited for, and the current node is not forgotten |
| Streamer.LateClose | src/lib/nxd_streamer.c:182-200 | a streamer closed behind a completed last node goes idle without passing its end on unless that node's source writes again |
| Streamer.EndUnsent | src/lib/nxd_streamer.c:75-95 | a final node that offers only its end to a stream that is not ready is complete, with the end neither passed on nor forced |
| Streamer.LateAdd | src/lib/nxd_streamer.c:132-149 | of two nodes added behind a final one, one before and one after it completes, the second is passed on and the first is not, against the order |
| JsonStrings.Utf8 | src/lib/nxjson.c:79-89 | defined exactly for scalar values, in at most three octets below 0x10000 and four above |
| JsonStrings.Utf8RoundTrip | src/lib/nxjson.c:79-89 | the encoder's octets decode to the code point under RFC 3629 |
| JsonStrings.Utf8Unique | src/lib/nxjson.c:79-89 | octets stand for a character under RFC 3629 only if they are those the encoder writes for it |
| JsonStrings.UnescapeText | src/lib/nxjson.c:100-176 | every text of a string, with raw octets, short escapes, \u escapes and surrogate pairs in any mix, is read as the string it stands for |
| JsonStrings.UnescapeString | src/lib/nxjson.c:100-176 | the in-place loop equals the reference on the old text, writes nothing before the string and nothing that is unread |
| JsonStrings.SpellMeans | src/lib/nxjson.c:100-176 | every string without NUL has such a text |
| JsonLaws.LetterEscapes | src/lib/nxjson.c:110-131 | quote, slash and backslash escapes stand for themselves, those with b, f, n, r and t for the control characters of RFC 8259 |
| JsonLaws.OtherEscapes | src/lib/nxjson.c:166-169 | a backslash before any other character but u is left alone |
| JsonLaws.CharacterEscapes | src/lib/nxjson.c:132-165 | every character written as its number in four hexadecimal digits, or as the two of its surrogate pair, is read as its UTF-8 form |
| JsonLaws.BrokenEscapes | src/lib/nxjson.c:136-164 | a \u without four hexadecimal digits, with a lone second half of a surrogate pair, or with a first half and no second one behind it, makes the string unreadable |
| JsonLaws.BlockEnd | src/lib/nxjson.c:178-193 | a block comment ends at the first star and slash behind its opening, and is rejected if there is none |
| JsonLaws.LineEnd | src/lib/nxjson.c:212-220 | a line comment ends at the first line feed |
| JsonLaws.LineCommentSkipped | src/lib/nxjson.c:326-334 | line comments are skipped before values and keys |
| JsonLaws.BlockCommentSkipped | src/lib/nxjson.c:335-338 | block comments are skipped before values and keys |
| JsonLaws.NumbersRead | src/lib/nxjson.c:280-287 | numbers are read in base 10, with a leading zero in base 8, with 0x in base 16, each to the end of its digits |
| JsonLaws.NumberRange | src/lib/nxjson.c:280-301 | a decimal number is read as its value exactly if it is in the range of 64 bits with a sign and errno was not ERANGE, and is rejected otherwise |
| JsonParser.ParseValue | src/lib/nxjson.c:241-349 | a value read moves on; none is read only at a closing bracket |
| JsonParser.ParseKey | src/lib/nxjson.c:195-239 | a key read moves on; the other good end is a closing brace |
| JsonText.ParseDoc | src/lib/nxjson.c:241-349 | a value's text is read as its tree and no further; rejected exactly if it holds a number and errno was ERANGE before |
| JsonText.TextIsRead | src/lib/nxjson.c:355-362 | every RFC 8259 text of a tree, with any white space and escapes, parses to that tree if and only if it has no number or errno was not left at ERANGE |
| JsonText.EncodeMeans | src/lib/nxjson.c:355-362 | every tree of null, booleans, 64-bit integers, NUL-free strings, arrays and objects has a text |
| JsonText.RoundTrip | src/lib/nxjson.c:355-362 | parsing that text rebuilds the tree |
| JsonInPlace.AfterBlockAt | src/lib/nxjson.c:178-193 | the search for the end of a block comment |
| JsonInPlace.NumberAt | src/lib/nxjson.c:280-301 | the scan of sign, base and digits in the buffer reads the number the text stands for |
| JsonInPlace.ParseKeyAt | src/lib/nxjson.c:195-239 | keys are read and unescaped in place as the untouched text says |
| JsonInPlace.StandsKept | src/lib/nxjson.c:100-176 | what is written behind a tree leaves its strings and keys where its nodes point |
| JsonInPlace.ParseValueAt | src/lib/nxjson.c:241-349 | the parser, rewriting its buffer as it goes, finds nodes that stand for what the untouched text stood for, and writes only what it has read |
| JsonInPlace.ParseItemsAt | src/lib/nxjson.c:264-271 | the children loop of an array |
| JsonInPlace.ParseMembersAt | src/lib/nxjson.c:253-263 | the children loop of an object |
| JsonInPlace.Parse | src/lib/nxjson.c:355-362 | rejected, stopped at a floating-point number, or read exactly as the text handed over is; at the end the nodes stand for its tree in the final buffer, and nothing unread is written |
| JsonDocument.ParseDocument | src/lib/nxjson.c:355-362 | every RFC 8259 text of a tree, in a buffer, is parsed in place to that tree, with all strings and keys NUL-terminated where nodes point; rejected exactly if it holds a number and errno was ERANGE |
| Sha1.HashConcat | src/lib/deps/sha1-c/sha1.c:143-185 | hashing blocks one after the other is hashing their concatenation |
| Sha1.PaddingFits | src/lib/deps/sha1-c/sha1.c:326-371 | padding fills the last block, or one more, and ends with the length |
| Sha1.TwoBlocks | src/lib/deps/sha1-c/sha1.c:334-348 | padding over two blocks completes the digest |
| Sha1.OneBlock | src/lib/deps/sha1-c/sha1.c:349-370 | padding within the block completes the digest |
| Sha1.LengthOctets | src/lib/deps/sha1-c/sha1.c:361-368 | the two length words give the message length in bits |
| Sha1.OctetsValue | src/lib/deps/sha1-c/sha1.c:361-368 | the eight length octets stand for the length |
| Sha1.Context.constructor | src/lib/deps/sha1-c/sha1.c:71-85 | the initial values of the standard, nothing absorbed |
| Sha1.MakeSchedule | src/lib/deps/sha1-c/sha1.c:224-235 | the message schedule of the standard: the first words hold the block's octets, and each later one turned right by a bit is the exclusive or of the four before it that the standard names |
| Sha1.TwentyRounds | src/lib/deps/sha1-c/sha1.c:243-287 | each of the four loops does its twenty rounds of the standard |
| Sha1.Context.ProcessMessageBlock | src/lib/deps/sha1-c/sha1.c:207-301 | one block is compressed as the standard defines |
| Sha1.Context.Input | src/lib/deps/sha1-c/sha1.c:143-185 | however the message is split into calls, the context has taken in the concatenation; it is marked corrupted exactly if the message reaches 2^64 bits or the digest was asked for before |
| Sha1.Context.PadMessage | src/lib/deps/sha1-c/sha1.c:326-371 | both padding cases end in the digest of the message |
| Sha1.Context.Result | src/lib/deps/sha1-c/sha1.c:104-119 | the digest is that of FIPS PUB 180-1 on everything absorbed, also when asked for again |
| Sha1Example.DigestOfAbc | src/lib/deps/sha1-c/sha1.c:207-301 | the digest of "abc" is that of appendix A of FIPS PUB 180-1 |

## Left out

Behaviour of modelled code that the model does not capture:

- ChunkedDecoder.Decoder.Decode: a chunk size beyond the signed 64-bit counter ends in a status of its own, because C leaves the overflow undefined.
- ResponseWriter.WriteOrSendfile: data is octets in memory; the sendfile and file-reader sources write through the same calls.
- RequestBody.ReaderHasDecoded: nothing is said of what the reader gets once the decoder has rejected octets, except how many; the error message published then is not modelled.
- ServerProtocol.Step: the connection's struct is a value handed from callback to callback, so update in place is not captured; a producer writes nothing behind a response that is through, one reader is connected for a request, and the socket streams stay connected. Finalizing a connection is not modelled.
- AlignHash.Table.Set: linear probing with 32-bit words as configured; tier probing and the 64-bit layout are not modelled. The mask is modelled as the remainder by a size kept a power of two. Allocation succeeds.
- Cache.Cache.Store: reading the file and the fields copied to the response happen outside the locked section and are not modelled; neither is the release of everything at shutdown.
- Workers.StepInv: the limit on how many workers may live and the bound on idle ones that collection aims at are not modelled, so that more workers may be made, and more stopped, than by the source; memory is sequentially consistent at the level of the barriers in the source; creation cannot fail, the reply when no worker can be had is not modelled, and dead workers are not joined and freed.
- NxBuffer.Buffer.AllocObj: sizes are mathematical integers, chunks are aligned to 16 octets with headers of 24 octets as on 64-bit Linux, and allocation succeeds. The inline variants without a room check and formatted printing are not modelled.
- Pool.Pool.Alloc: object payloads and the iterator over allocated objects are not modelled; a chunk holds at least one object, since the source would follow a null pointer for an empty one.
- PubSub.Loop.ProcessOne: the queue holds the messages only; stream events and callbacks share the source's queue without touching subscribers' chains. Subscriber lists and chains are sequences.
- StreamEvents.Loop.Deliver: the queue holds the stream events only. Direct writes of ready flags, past the API, are not covered.
- TimerQueues.Timers.Set: timers are numbers in queues that are sequences; a timer is unset through the queue it was set in, as all callers do.
- JsonParser.ParseValue: floating-point numbers stop the model, because they are read by the C library.
- JsonInPlace.ParseValueAt: a node's children are a sequence instead of links, and error messages are not modelled. Only the UTF-8 encoder is modelled.
- Sha1.Context.Input: the length argument is that of the data given, without its 32-bit limit.

Parts of the server that are not modelled:

- Sockets, epoll, eventfd and files: they are arbitrary accepted counts and ready flags.
- TLS, compression, image and Python modules: foreign code.
- Daemon, configuration, logging, command line and sample modules: plumbing.
- Templates, server-side includes, the HTTP client and proxy, subrequests and filters.
- Parsing and building of HTTP headers, URIs, cookies and dates.
- The hash functions: the hash is an arbitrary function of the key.
