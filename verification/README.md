# A verified model of LightIPC

LightIPC is a small C++ library for inter-process communication on POSIX: a byte buffer that serialises typed
values, a framed datagram socket, a request/response/notify protocol on a pair of such sockets, a message queue,
a thread wrapper and a semaphore. This project models that logic in Dafny and proves what the library is for:
requests get their own responses, frames never mix, no wake-up and no message is lost, and what is written is
what is read. `dafny verify dfyconfig.toml` checks all of it.

## Components

**Byte buffer** (`Bytes`, `Codec`, `Message`, `Buffers`, `Dumps`, `DumpReading`). A `Schema` is the static C++ type that selects
an `Append`/`Value` overload; `Encode` and `Read` are the writer and the reader with its cursor. Two structural
inductions carry the round trip: `ReadBack` (what was written comes back) and `ReadIsFaithful` (the reader can only
return what a 32-bit length can carry), which together give an if-and-only-if over all values. `ByteBuffer` is the
object that appends in place and moves a 32-bit cursor; its loops are proved against the pure codec. `Dumps` has
the nested counter loops of the hex dump and a parser that is its left inverse; `DumpReading` says what each printed
number, separator and column is.

**Framing** (`Framing`, `Sockets`). A frame is an 8-byte magic-and-length datagram, a header datagram of at most
512 bytes, and a body in chunks of at most 1024. `Feed` is the receiver's reaction to one datagram, `Recv` one
whole `Receive` call. `UnixDomainSocket` has the two real loops, over a channel whose `sendto` may fail or accept
any positive part of a chunk.

**Protocol** (`Wires`, `Rpc`, `RpcProofs`, `RpcTheorems`, `RpcProgress`, `RpcCalls`, `TypedCalls`). A transition system with
any number of client threads, the client's receive thread, the server's loop and any number of notifying threads. One step locks
a mutex, sends one datagram, receives one datagram, waits, signals, wakes (also spuriously) or runs the handler.
The invariant joins the discipline of the three mutexes, the integrity of both datagram queues, the slot protocol,
and a count of the exchanges in flight; it is proved for every step and hence for every run.

**Message queue** (`MessageQueues`, `Notifications`). A POSIX priority queue used at one constant priority refines
a bounded FIFO and conserves its messages; the drain loops are proved against `Drain`, with other processes sending
between any two receives; the deadline arithmetic is done in 64-bit terms. `Notifications` is the one-shot
`mq_notify` registration with any number of callback activations (IEEE Std 1003.1-2017, System Interfaces,
mq_notify(), mq_send(), mq_receive()).

**Threads and semaphore** (`ThreadRegistry`, `Semaphores`). Interleavings of start, register, cancel, cleanup and
reuse of thread ids; and of Wait with a Post that reads the value before it posts.

## Assumptions, and where the code differs from its comments

- A response above the limit of the server's Send is refused, and its caller is told nothing: it waits on, holding the
  client's outer mutex (src/UnixDomainSocketServer.cpp:70-75, src/UnixDomainSocketClient.cpp:72-74). `ReturnsIff` says
  exactly when.
- `Result::operator bool` is true on success (src/Result.cpp:91-94), and the client tests `if (m_isResponseError)`
  under comments that say "Receive error" (src/UnixDomainSocketClient.cpp:81, 118). `Config.asWritten` selects the
  guard of the code; otherwise the guard means an error. `MatchedUnlessAsWritten` shows that responses match
  requests exactly for the second; `AsWrittenRun` is a run of the first in which a notification is taken for the
  response.
- `m_isResponseError` is written outside `m_responseMutex` (src/UnixDomainSocketClient.cpp:117). In the protocol's
  runs no receive fails (proved, `FrameIntegrity`) and no `sendto` fails; a `Send` that refuses an oversized header
  or body is included. Under the limit 0 (none) callers, handlers and notifiers keep their messages below 2^32 bytes;
  the size field could not carry more (src/UnixDomainSocket.cpp:135).
- Both ends of the protocol use the same size limit, which does not change during a run.
- The request handler adds its response to the buffer it is given; the server's loop reuses that buffer, and the
  model keeps it as state that only the clearing after each reply empties (src/UnixDomainSocketServer.cpp:78).
- include/Thread.h:86-88 says that `Cancel` and `Join` do nothing on an inactive thread; the code does not check
  (src/Thread.cpp:242-251), and neither does the model's `Cancel`. `Start` checks and sets `m_isActive` in two steps
  (src/Thread.cpp:229-232): `RegistryExact` and `ActiveExact` assume one controller per object, `RacingStarts` shows
  what happens without. `pthread_cleanup_pop(1)` (src/Thread.cpp:208) removes the handler before it runs it, so a
  cancellation inside `Cleanup()` after a normal return ends the thread without the rest of the handler;
  `Config.cancelInCleanup` selects whether this can happen, and `RegistryExactIff` says what depends on it.
- `Value` of a vector or a map adds to the caller's container (include/ByteBuffer.h:251, 273); contracts are
  relative to what it held.
- A size_t travels as an int (src/ByteBuffer.cpp:163-170, 225-232); `Faithful` says which values survive.
- A buffer appended to itself also copies the length just written (src/ByteBuffer.cpp:101-122):
  `SelfAppendMisaligns`.
- The cursor is an unsigned 32-bit integer; `wrap` is its modulus.
- include/UnixDomainSocket.h:40 says headers are shorter than 512 bytes and bodies below the limit; the code also
  accepts equality, and so does the model.
- Integers are little-endian; a primitive is the tuple of its bytes. The map's order is a strict total order.
- A read that leaves the buffer is undefined in the original and `None` here.

## Model

| member | source | states |
|---|---|---|
| RpcTheorems.ResponsesMatch | src/UnixDomainSocketClient.cpp:44-161 | in every run with any number of callers, notifiers and server pings, each completed request returned the handler's response to that very request: the i-th completed request corresponds to the i-th handler call; a ping returns "OK" |
| RpcTheorems.MatchedUnlessAsWritten | src/UnixDomainSocketClient.cpp:81-83 | responses match requests in all reachable states if and only if the guard on the receive result is the intended one |
| RpcTheorems.AsWrittenNeverCopies | src/UnixDomainSocketClient.cpp:118-124 | with the guard as written, no call that returns success ever changes its caller's response buffer |
| RpcTheorems.AsWrittenRun | src/UnixDomainSocketClient.cpp:117-124 | with the guard as written, a request returns success before the handler was called, because a notification is taken for its response |
| RpcTheorems.OneExchange | src/UnixDomainSocketClient.cpp:44-100 | at most one exchange exists across request channel, server, reply channel, receive thread and response slot, and none when no caller is between its Send and its return |
| RpcTheorems.HandledInsideTheCall | src/UnixDomainSocketClient.cpp:49-57 | when a caller enters, all handler calls so far belong to calls that have returned and nothing stale is under way |
| RpcTheorems.FrameIntegrity | src/UnixDomainSocketServer.cpp:67-121 | in both directions what was received, is queued and is still to be sent by the lock's holder is exactly the frames begun, in order; in neither direction are two senders inside Send at once; no Receive ever fails |
| RpcTheorems.NoWakeupIsLost | src/UnixDomainSocketClient.cpp:50-74 | for a blocked caller the flag is up exactly if something has been stored since its Send began, and it is then about to be signalled; and exactly one exchange is still under way if and only if the server's Send has not refused its reply |
| RpcProgress.NoDeadlock | src/UnixDomainSocketClient.cpp:72-74 | while a caller is blocked, the server, the receive thread or a notifying thread inside its Send can always take a step that is no refusal, unless the handler has answered with more than the limit of Send |
| RpcProgress.ReturnsIff | src/UnixDomainSocketServer.cpp:68-76 | a waiting call can still return if and only if the handler has not answered it with more than the limit; otherwise no call of this client ever completes, in any continuation |
| RpcProgress.NeverReturns | src/UnixDomainSocketClient.cpp:72-74 | once the handler has answered with more than the limit, every run leaves the completed calls as they are |
| RpcProgress.Returns | src/UnixDomainSocketClient.cpp:72-99 | from every other state in which a caller is blocked, a run completes exactly its call, with the answer to a ping, the answer already given, or whatever answer within the limit the handler still gives |
| RpcProgress.RefusedIff | src/UnixDomainSocket.cpp:124-128 | for a blocked caller whose exchange has left the server, the reply was refused if and only if the handler's response exceeds a limit that is not 0 |
| RpcProgress.RefusedRun | src/UnixDomainSocketServer.cpp:70-75 | for every such response there is a run that leaves its caller waiting forever |
| RpcProgress.DriveFalls | src/UnixDomainSocketServer.cpp:42-80 | every step of the server, the receive thread or a thread inside Notify lowers a measure of what is still to be answered, sent, received and signalled |
| RpcProgress.DrivesEnd | src/UnixDomainSocketClient.cpp:111-161 | no endless run consists of such steps |
| RpcProgress.MaximalDrive | src/UnixDomainSocketClient.cpp:132-150 | a sequence of such steps that cannot be continued has signalled the blocked caller, unless the handler has answered with more than the limit |
| RpcCalls.CallCompletes | src/UnixDomainSocketClient.cpp:44-100 | while no other call is under way, any thread can make any call within the limits, and for every response within the limits a run completes it with exactly this response |
| RpcCalls.EnteredCompletes | src/UnixDomainSocketClient.cpp:54-99 | the same for every call that holds the outer mutex, whatever has happened before |
| RpcCalls.RequestChoices | src/UnixDomainSocket.cpp:116-128 | a call that has entered is refused, without a trace, if and only if its request exceeds the limit; otherwise, and only then, it can be sent, in any cutting |
| RpcCalls.ReplyChoices | src/UnixDomainSocketServer.cpp:68-76 | the same for the server's reply |
| RpcCalls.NoticeChoices | src/UnixDomainSocketServer.cpp:102-121 | a notification, with header 1, or a server ping, with header 3 and body "PING", can be sent, in any cutting, if and only if it is within the limits |
| RpcCalls.NoticeIsDelivered | src/UnixDomainSocketClient.cpp:139-143 | while no call is under way, any notification within the limits can be begun, and a run delivers it after all earlier ones |
| RpcCalls.SpuriousWakeReturns | src/UnixDomainSocketClient.cpp:72-74 | a wake-up without reason leads back into the wait and changes nothing |
| RpcTheorems.NothingStaleIsTaken | src/UnixDomainSocketClient.cpp:64-74 | a caller takes a response only if one has been stored since its Send began, under either guard |
| RpcTheorems.DoomedStays | src/UnixDomainSocketServer.cpp:70-75 | after such an answer no step completes a call or makes it smaller |
| RpcTheorems.RefuseDoomed | src/UnixDomainSocket.cpp:124-128 | Send refuses a reply for no other reason, and never the answer to a ping |
| RpcTheorems.NotificationsInOrder | src/UnixDomainSocketServer.cpp:102-110 | notifications reach ReceiveNotify once each, in the order of sending, and all of them once the reply channel is empty |
| RpcTheorems.CompletedSized | src/UnixDomainSocketClient.cpp:88-90 | requests and responses of completed calls are within the limit and below 2^32 bytes, in runs in which no larger message is handed to an unlimited Send |
| RpcTheorems.RunInv | src/UnixDomainSocketClient.cpp:44-161 | the whole invariant (locks, both queues, slot, exchange, notifications) survives every run |
| RpcTheorems.StepInv | src/UnixDomainSocketServer.cpp:36-82 | every step of every thread keeps the whole invariant |
| RpcProofs.ClientIntegrity | src/UnixDomainSocketClient.cpp:49-74 | a caller's steps keep the lock discipline and frame integrity in both directions |
| RpcProofs.ServerIntegrity | src/UnixDomainSocketServer.cpp:42-80 | the server's steps keep them, and every request meets an empty response buffer |
| RpcProofs.NotifierIntegrity | src/UnixDomainSocketServer.cpp:102-121 | Notify and Ping of any thread keep them |
| RpcProofs.ReceiverIntegrity | src/UnixDomainSocketClient.cpp:111-161 | the receive thread's steps keep them |
| RpcProofs.ClientWakeup | src/UnixDomainSocketClient.cpp:52-74 | a caller's steps keep: nothing is stored during Send, what is stored later stays flagged until it is taken, and a blocked caller with an arrived response is about to be signalled |
| RpcProofs.ReceiverWakeup | src/UnixDomainSocketClient.cpp:132-150 | storing raises the flag and never happens during a Send, and signalling wakes the one blocked caller |
| RpcProofs.ClientExchange | src/UnixDomainSocketClient.cpp:54-99 | sending starts the one exchange of the active call; clearing and waiting lose none; taking the response ends it with the answer to this call |
| RpcProofs.ServerExchange | src/UnixDomainSocketServer.cpp:42-80 | the server moves the exchange from request to response, logs one handler call for it, and loses it only when Send refuses the response |
| RpcProofs.NotifierExchange | src/UnixDomainSocketServer.cpp:102-121 | notifications and server pings are never part of an exchange |
| RpcProofs.ReceiverExchange | src/UnixDomainSocketClient.cpp:130-158 | demultiplexing moves replies, and only replies, into the slot, and loses none |
| RpcProofs.HeaderType | src/UnixDomainSocketClient.cpp:55-56 | the type written into a header is the type read from it |
| TypedCalls.TypedCall | src/UnixDomainSocketServer.cpp:55-72 | appending typed arguments, calling through frames, threads and handler, and reading the results equals applying the procedure to the arguments, with nothing left over |
| TypedCalls.FixedMessages | src/UnixDomainSocketServer.cpp:55-60 | the "PING" and "OK" bodies and the type headers 0 to 3 are what the byte buffer writes and reads |
| TypedCalls.PeekType | src/UnixDomainSocketClient.cpp:130-131 | reading the type of a header and rewinding gives the type the protocol goes by, and leaves header and cursor as they were |
| Wires.BeginKeeps | src/UnixDomainSocket.cpp:130-138 | starting a frame under the lock keeps frame integrity |
| Wires.PutKeeps | src/UnixDomainSocket.cpp:137-167 | sending the next datagram of the frame keeps it |
| Wires.TakeKeeps | src/UnixDomainSocket.cpp:181-242 | receiving a datagram never fails, keeps it, and completes a frame with exactly that frame's header and body |
| Framing.FeedFrame | src/UnixDomainSocket.cpp:219-235 | the sender's and the receiver's offsets stay equal: no datagram is cut, and the receiver is done at the frame's last datagram and not before |
| Framing.FrameRoundTrip | src/UnixDomainSocket.cpp:172-243 | receiving a frame returns what was sent and consumes exactly it, if and only if header, body and size are within the limits |
| Framing.StreamRoundTrip | src/UnixDomainSocket.cpp:110-243 | N sends and N receives return the same pairs in order and leave the queue as it was, however chunks were accepted, if and only if every pair is acceptable |
| Framing.RecvSize | src/UnixDomainSocket.cpp:200-237 | whatever the queue holds, a delivered body has the announced size within the limit and a delivered header at most 512 bytes |
| Framing.Resync | src/UnixDomainSocket.cpp:181-207 | as many failing receives as there are stray datagrams clear exactly these, if and only if none passes for a protocol header |
| Framing.RefusedIff | src/UnixDomainSocket.cpp:182-204 | what passes for a protocol header is exactly the eight bytes DE AD C0 DE and a size within the limit |
| Framing.OversizedRefused | src/UnixDomainSocket.cpp:154-167 | every datagram of an oversized frame is refused if and only if its header and an 8-byte last chunk do not look like a protocol header |
| Framing.OversizedResync | src/UnixDomainSocket.cpp:181-207 | after an oversized frame exactly 2 + ceil(size/1024) receives fail and the next frame is delivered, if and only if there is no such lookalike |
| Framing.ShortHeaderNoLookalike | src/UnixDomainSocketServer.cpp:106-109 | with 4-byte headers there is none unless the size is 8 modulo 1024 |
| Framing.WholeFrame | src/UnixDomainSocket.cpp:153-167 | whole chunks make a frame of 2 + ceil(size/1024) datagrams |
| Sockets.UnixDomainSocket.Send | src/UnixDomainSocket.cpp:110-170 | each refusal exactly on its condition, without a call; success puts a frame for this header and body behind the queue, failure a proper cut of one; it fails if and only if one of its sendto calls failed or cut a header; and if all of them accept everything, the frame is sent in whole chunks |
| Sockets.UnixDomainSocket.SendBody | src/UnixDomainSocket.cpp:153-167 | the loop sends the body in consecutive pieces of at most 1024 bytes, and stops early exactly where a sendto call fails |
| Sockets.UnixDomainSocket.Receive | src/UnixDomainSocket.cpp:172-243 | unless a recvfrom call of this one failed, outcome, header, body and remaining queue are those of the specification, for every queue; if one did, an error, with exactly the datagrams consumed so far gone and the call then still incomplete; and what the caller's header has been assigned |
| Sockets.UnixDomainSocket.ReceiveBody | src/UnixDomainSocket.cpp:211-242 | the loop that fills the array returns the specification's body, or stops where a read fails |
| Sockets.CutIsNoFrame | src/UnixDomainSocket.cpp:137-166 | what a failed Send leaves is never a whole frame |
| Sockets.UnixDomainSocket.constructor | src/UnixDomainSocket.cpp:19-27 | the socket is closed and its limit is 0xffffff |
| Sockets.UnixDomainSocket.Open | src/UnixDomainSocket.cpp:41-76 | open afterwards if it was or if the first bind succeeds; after a failed bind a further attempt reports success and stays closed |
| Sockets.UnixDomainSocket.Close | src/UnixDomainSocket.cpp:78-98 | closed afterwards; the descriptors are given back only if it was open |
| Codec.RoundTrip | include/ByteBuffer.h:138-291 | for every schema, reading what was written gives the value back with the cursor just past it, if and only if all lengths fit 31 bits and the cursor does not wrap |
| Codec.RoundTripInto | include/ByteBuffer.h:242-276 | reading into a non-empty container appends to a vector, and in a map keeps the caller's values and adds all other keys |
| Codec.ReadIsFaithful | include/ByteBuffer.h:242-291 | from arbitrary bytes the reader only returns well-typed values (maps strictly ascending) with 31-bit lengths |
| Codec.ReadBack | src/ByteBuffer.cpp:178-232 | the reader inverts the writer, by induction on the schema |
| Codec.ReadIntoBack | include/ByteBuffer.h:242-276 | the same for a container with contents |
| Codec.MapCanonical | include/ByteBuffer.h:156-171 | maps with equal lookups have one iteration order, hence one encoding |
| Codec.LookupInsertAll | include/ByteBuffer.h:262-276 | repeated insert keeps existing keys' values and takes the first value for each new key |
| Codec.InsertAllAscending | include/ByteBuffer.h:262-276 | inserting an ascending stream rebuilds exactly that map |
| Codec.InsertAllKeeps | include/ByteBuffer.h:273 | repeated insert keeps the keys strictly ascending and invents no entry |
| Codec.ReadTextBack | src/ByteBuffer.cpp:193-201 | a string of less than 2^31 bytes comes back |
| Codec.NegativeCount | include/ByteBuffer.h:246-254 | a negative element count reads no element and leaves the container as it was |
| Bytes.DecodeEncodeInt | include/ByteBuffer.h:182-187 | the four bytes of an int read back as its value modulo 2^32 |
| Bytes.EncodeTruncated | src/ByteBuffer.cpp:163-170 | casting a size_t to int changes none of the bytes written |
| Message.FieldRoundTrip | src/ByteBuffer.cpp:101-136 | a char * comes back if and only if it also has no NUL; a nested buffer behaves like a string |
| Message.MessageRoundTrip | include/ByteBuffer.h:182-291 | a sequence of appends read by the same sequence of value calls gives the same values and ends where the bytes end, if and only if all are faithful |
| Message.MessageBack | src/ByteBuffer.cpp:178-232 | the constructive half, by induction on the sequence |
| Message.UniqueDecoding | src/ByteBuffer.cpp:112-122 | for one message type no encoding is a proper prefix of another, and equal bytes mean equal values |
| Buffers.ByteBuffer.AppendSize | src/ByteBuffer.cpp:163-170 | the contents grow by exactly the codec's four bytes |
| Buffers.ByteBuffer.AppendString | src/ByteBuffer.cpp:112-122 | the contents grow by the codec's encoding of the string |
| Buffers.ByteBuffer.AppendCString | src/ByteBuffer.cpp:130-136 | the same, for the text before the first NUL |
| Buffers.ByteBuffer.AppendBuffer | src/ByteBuffer.cpp:101-104 | the encoding of the other buffer's contents, and the aliased result when it is the same buffer |
| Buffers.SelfAppendMisaligns | src/ByteBuffer.cpp:101-122 | a buffer appended to itself reads back its old contents but leaves four bytes over |
| Buffers.ByteBuffer.AppendVector | include/ByteBuffer.h:138-148 | the loop writes the codec's encoding of the vector, also when the int counter cuts it |
| Buffers.ByteBuffer.AppendMap | include/ByteBuffer.h:156-171 | the iterator loop writes the codec's encoding of the map |
| Buffers.ByteBuffer.AppendItem | include/ByteBuffer.h:182-187 | whatever the schema, the contents grow by its encoding |
| Buffers.ByteBuffer.ValueRaw | include/ByteBuffer.h:284-291 | the bytes at the cursor, which moves by their number modulo 2^32 |
| Buffers.ByteBuffer.ValueText | src/ByteBuffer.cpp:193-201 | the codec's string at the cursor, which moves as the codec says |
| Buffers.ByteBuffer.ValueCString | src/ByteBuffer.cpp:209-217 | the caller's array then holds the C string the codec reads, and is untouched behind its end |
| Buffers.ByteBuffer.ValueBuffer | src/ByteBuffer.cpp:178-185 | the target is replaced, with its cursor at 0, also when it is this buffer |
| Buffers.ByteBuffer.ValueVector | include/ByteBuffer.h:242-254 | the loop appends to the caller's vector what the codec reads |
| Buffers.ByteBuffer.ValueMap | include/ByteBuffer.h:262-276 | the loop inserts into the caller's map what the codec reads |
| Buffers.ByteBuffer.ValueItem | include/ByteBuffer.h:284-291 | whatever the schema, value and cursor are the codec's |
| Buffers.CopyCString | src/ByteBuffer.cpp:213-214 | strncpy and the NUL behind it leave exactly the text before the first NUL, and nothing else changes |
| Dumps.Dump | src/ByteBuffer.cpp:259-300 | the nested loops print the specified text |
| Dumps.DumpBack | src/ByteBuffer.cpp:272-298 | a parser recovers the bytes from the text, for every length and row-number width |
| Dumps.DumpInjective | src/ByteBuffer.cpp:259-300 | two dumps are equal if and only if the bytes are |
| Dumps.DumpLines | src/ByteBuffer.cpp:270-298 | one header line and ceil(size/16) rows |
| DumpReading.SizeReads | src/ByteBuffer.cpp:270-271 | the first line says "Size=" and, in decimal without leading zeros, the number of bytes |
| DumpReading.RowReads | src/ByteBuffer.cpp:274-297 | row r is labelled with ten times r, at least four digits; its columns, between their separators, show its bytes in two hexadecimal digits and as themselves if printable, "." if not, and blanks behind the end |
| DumpReading.DecimalReads | src/ByteBuffer.cpp:270 | the digits printed for a number are those of the number, the most significant first |
| MessageQueues.Added | src/MessageQueue.cpp:18-28 | adding two times adds their nanoseconds and keeps them normalised |
| MessageQueues.TimeAdd | src/MessageQueue.cpp:18-28 | computes that sum |
| MessageQueues.DeadlineExact | src/MessageQueue.cpp:212-218 | the deadline is exactly now plus the milliseconds if and only if these are at most 9223372036854; then it is normalised |
| MessageQueues.Truncates | src/MessageQueue.cpp:215-216 | division truncates toward zero: the remainder has the sign of the dividend |
| MessageQueues.ConstantPriorityIsFifo | src/MessageQueue.cpp:14 | with one priority the priority queue is first in, first out |
| MessageQueues.DrainConserves | src/MessageQueue.cpp:287-302 | a drain with senders in between keeps every message and the order, never overfills the queue, and empties it unless a receive fails |
| MessageQueues.QuietDrain | src/MessageQueue.cpp:287-302 | without senders it yields exactly the queue's contents |
| MessageQueues.DrainGetsAll | src/MessageQueue.cpp:287-302 | as long as something arrives before each receive and finds room, the drain yields it too, in order |
| MessageQueues.DrainFails | src/MessageQueue.cpp:287-302 | a drain fails if and only if its failing receive is not after the one that would have found the queue empty; it has then dequeued one message for every earlier receive |
| MessageQueues.BatchLoss | src/MessageQueue.cpp:293-296 | the batch receive loses no message, if and only if no receive fails, or the first one does, or only one after the queue would have been found empty |
| MessageQueues.BatchLosesOne | src/MessageQueue.cpp:293-296 | a losing input: one message, and an error on the second receive |
| MessageQueues.PosixQueue.constructor | src/MessageQueue.cpp:103-108 | an empty queue with the owner's limits, or 10 messages of 8192 bytes |
| MessageQueues.SendConserves | src/MessageQueue.cpp:202-227 | whatever other processes do during a send, nothing is lost or overtaken, the bound holds, and a successful send puts its message last |
| MessageQueues.ReceiveConserves | src/MessageQueue.cpp:234-269 | likewise for a receive; a queue that is not empty yields its oldest message at once |
| MessageQueues.SendStatus | src/MessageQueue.cpp:202-227 | for each result of a send exactly when it occurs; a message that is not too long is accepted when there is room, or when its turn comes and room is left |
| MessageQueues.ReceiveStatus | src/MessageQueue.cpp:234-269 | for each result of a receive exactly when it occurs; a receive that waited and got its turn takes the oldest message the others left |
| MessageQueues.TrafficLast | src/MessageQueue.cpp:210-219 | what the last call of another process does: a send goes behind the others if there is room, a receive takes the oldest |
| MessageQueues.TrafficConserves | src/MessageQueue.cpp:210-219 | the sends and receives of other processes keep order, messages and bound |
| MessageQueues.PosixQueue.Send | src/MessageQueue.cpp:210-219 | the status (done at once or after a wait with any traffic of others, too long, timed out, interrupted, invalid deadline, kernel fault) and the new queue and histories are those of SendEffect |
| MessageQueues.PosixQueue.Meanwhile | src/MessageQueue.cpp:210-219 | the calls other processes make during a wait have the specified effect |
| MessageQueues.PosixQueue.Receive | src/MessageQueue.cpp:250-259 | likewise those of ReceiveEffect, and the message returned is the one taken last |
| MessageQueues.MessageQueue.TimedSend | src/MessageQueue.cpp:202-227 | an error on a closed queue; otherwise SendEffect without a deadline or with the one DeadlineExact is about |
| MessageQueues.MessageQueue.TimedReceive | src/MessageQueue.cpp:234-269 | an error on a closed queue; otherwise ReceiveEffect likewise, and the message taken last |
| MessageQueues.MessageQueue.DrainLoop | src/MessageQueue.cpp:287-302 | the loop terminates with the specification's result, and everything dequeued is accounted for |
| MessageQueues.MessageQueue.ReceiveAll | src/MessageQueue.cpp:271-305 | the batch in order, or an error and an empty list; undisturbed, exactly the contents |
| MessageQueues.MessageQueue.Clear | src/MessageQueue.cpp:176-195 | the queue is empty afterwards unless a receive fails |
| Notifications.NoStrandedMessage | src/MessageQueue.cpp:307-320 | in every run a non-empty queue has an activation that has not yet seen it empty, if and only if the queue was empty at registration and no receive of the callback can fail for another reason than the time-out |
| Notifications.FailedPollStrands | src/MessageQueue.cpp:293-297 | a run in which such a failure leaves a message that nobody will receive although the registration stands |
| Notifications.RearmNeverCollides | src/MessageQueue.cpp:322-337 | (registered) + (fired, not yet re-armed) = 1, so registering again never fails, also when receives fail; messages leave in order |
| Notifications.MaximalCallbacks | src/MessageQueue.cpp:315-319 | callback steps that cannot be continued have emptied the queue and received everything sent, in order |
| Notifications.CallbacksEnd | src/MessageQueue.cpp:315-319 | a sequence of callback steps is no longer than the messages queued and the phases still to come |
| Notifications.SentIsReceived | src/MessageQueue.cpp:311-318 | whatever has happened before, a message that finds room is accepted, and the callbacks can go on to have received it after all earlier ones |
| Notifications.FiresIff | src/MessageQueue.cpp:311-314 | a message starts a callback if and only if it meets an empty queue, a registration and no process that waits; a process that waits gets it instead |
| Notifications.OthersReceive | src/MessageQueue.cpp:250 | a process that waits on an empty queue gets the next message before any callback, and one that finds a message the oldest |
| Notifications.StepInv | src/MessageQueue.cpp:307-337 | every step keeps that invariant |
| Notifications.ProcessFirstStrands | src/MessageQueue.cpp:311-318 | in the opposite order a run ends with a message nobody will receive although the registration stands |
| Notifications.StrandedStays | src/MessageQueue.cpp:311-318 | and no further send gets it received |
| ThreadRegistry.RegistryExact | src/Thread.cpp:72-211 | with one controller per object and no cancellation inside Cleanup(), in every run CurrentThread() gives a thread its own object throughout Execute and Cleanup and none before or after, the erase assertion holds, and each finished activation cleaned up exactly once |
| ThreadRegistry.RegistryExactIff | src/Thread.cpp:155-211 | the registry is exact in all runs if and only if these two conditions hold |
| ThreadRegistry.EraseHoldsIff | src/Thread.cpp:167-171 | the erase assertion holds in all runs if and only if each object has one controller |
| ThreadRegistry.CutShortStays | src/Thread.cpp:201-208 | a thread cancelled inside Cleanup() after a normal return ends without leaving the map |
| ThreadRegistry.StaleEntry | src/Thread.cpp:190-195 | and a later thread with the same id is given the dead thread's object |
| ThreadRegistry.ActiveExact | src/Thread.cpp:227-240 | under the same conditions an object is active exactly while one of its activations lives, and then only one does |
| ThreadRegistry.CancelsTheLatest | src/Thread.cpp:248-251 | Cancel of an object that has been started requests the cancellation of its latest activation and nothing else; with one controller no other one lives |
| ThreadRegistry.WholeLife | src/Thread.cpp:179-240 | an object that is not active can be started with any free thread id; its thread runs as this object, returns or is cancelled, cleans up once, and leaves all else as it was |
| ThreadRegistry.RacingStarts | src/Thread.cpp:229-232 | two controllers that start one object at once make the erase assertion fail |
| ThreadRegistry.StepInv | src/Thread.cpp:155-211 | with one controller every step keeps the registry's invariant, the exact part as long as no cleanup is cut short |
| Semaphores.LockBySemaphore | src/Semaphore.cpp:86-102 | with Wait and Post paired, value + holders = 1 in every run, no two processes hold the lock, and the value check never keeps a holder from posting |
| Semaphores.EveryoneCanLock | src/Semaphore.cpp:86-102 | every process can get the lock from every reachable state: at once if it is free, otherwise once the holder has posted, and not before |
| Semaphores.ValueBound | src/Semaphore.cpp:93-102 | without pairing the value plus the posts already decided never exceed max(1, N) |
| Semaphores.BoundAttained | src/Semaphore.cpp:96-100 | and N is reached |

## Left out

- System calls: opening, binding, unlinking and closing of sockets, queues and semaphores; channels, queues, mutexes, the condition variable and the counter stand for them, with their POSIX meaning.
- RpcProgress.MaximalDrive: that the steps which are possible are taken (fairness) and real time are not modelled; new notifications and the callers' own steps are not among the driving steps.
- RpcTheorems.ResponsesMatch: for runs in which the service stays active and no `sendto` fails; `m_isActive`, start, stop and cancellation of the receive thread are not modelled.
- Rpc: client and server are transition systems over values, because their claims are about interleavings; updates in place of their buffers and aliasing between them are not captured.
- RpcTheorems.CompletedSized: for runs in which no message of 2^32 bytes or more is handed to a Send with limit 0, whose size field would lose its upper bits.
- Sockets.UnixDomainSocket.Send: a `sendto` that accepts nothing of a non-empty chunk does not occur, so the loop ends.
- Message.FieldRoundTrip: text formatted by `Append(const char *, ...)` is taken as given; printf and its 4096-byte cut are left out.
- Codec.RoundTrip: vectors and maps of nested ByteBuffers or char pointers, which the original copies by object representation, are no schemas; floating point, padding and big-endian hosts are not distinguished from raw bytes.
- Dumps.Dump: `isprint` in the C locale, and a row counter that does not overflow an int.
- MessageQueues.DeadlineExact: `tv_sec` does not overflow.
- MessageQueues.PosixQueue.Send: what the other processes do during a wait, and what ends it, are parameters of the call; which of several waiting processes the kernel serves first is not modelled.
- Notifications.NoStrandedMessage: removing the registration with a null handler, a failing `mq_notify`, and another process's registration are left out; the handler is the draining one.
- ThreadRegistry.RegistryExact: asynchronous cancellation, a failing `pthread_create`, destruction of an object that is still active, and the effect of `Join` or `Cancel` on a dead thread.
- Semaphores.LockBySemaphore: a semaphore that could not be opened, on which Wait and Post do nothing.
- SharedMemory, SharedMemoryContext, Mutex, MutexLock, Result and ThreadAbstract: thin wrappers, used only as the primitives of the steps above.
- Sleep, Yield, Print, the example programs and the makefiles.
