# Verified model of asyncsys

asyncsys is a C++ library for asynchronous networking: an epoll loop per thread (`asyncnet`), a
server-side `session` that any thread may send through, a client-side `msgsession` that sends one
request at a time over a connection it re-establishes by itself, length-prefixed message frames cut
out of a growing receive buffer, and the MD5 and Base64 helpers. This project models those parts in
Dafny and proves what they promise.

Code that updates objects in place is modelled by classes and methods with loops. Where the promise
is about whole runs (`msgsession`, `session`), each method is proved to compute a function on the
object's value, and the promises are proved about all runs of those functions; where it is about one
call, the method's own contract states it.

## The parts

* **Request/response protocol** (`MsgSessionSpec`, `MsgSessionProofs`, `MsgSessionSteps`,
  `MsgSessionTheorems`, `MsgSession`). A queue with one request in flight and no correlation ids, with
  reconnection, a retry timer, timeouts, user callbacks that submit new queries while they run, and a
  hard send error that closes the connection inside the send. The environment's choices (kernel
  answers, what callbacks submit, elapsed time) form a finite script, so every finite behaviour is
  covered. For every run: completed callbacks followed by the queue are the submitted queries in
  order, each once; exactly the front entry has been sent on a live connection; no request text is
  sent twice; exactly one of connect pending, connection up, timer armed holds; a callback completed
  by a frame has seen the reply to its own query. The last point holds *if and only if* no frame of
  the run is, at its turn, a push outside the registered events while a query waits, which can be told
  before each dispatch; a concrete run shows what happens otherwise. What each single step does, down
  to which packets reach the server, is stated apart from the functions that compute it. The
  repository's own heartbeat can be such a push: `mydispatch::client` dispatches frames with an empty
  payload too (src/msg/mydispatch.h:35), while the protobuf recogniser skips them
  (src/pbmsg/pbdispatch.h:38).
* **Receive buffer** (`IoBuffer`, `IoBufferHistory`). `ioBufferEx` is a plain byte queue over every
  history of its operations, with prefix, size and capacity computed exactly. Capacity always stays
  within twice the peak of stored plus requested bytes. Consumed bytes are among the stored ones,
  and the bound on live plus requested bytes is false for `append`, which `recv` uses and which never
  compacts: an operation keeps it if and only if it is *modest* (an append is, if it need not grow or
  the live bytes alone would make it grow). Histories of modest operations keep it; a family of other
  histories breaks it without limit.
* **Framing** (`Framing`, `Client`, `Msg`, `WsMsg`, `Streams`). The recognisers read the length of a
  frame before they know that it has arrived, so what they make of an unfinished frame can depend on
  stale memory behind the window. The code is therefore *not* right for every way of cutting a stream
  into reads: a run on the client's own buffer delivers a message that nobody sent, because the first
  two bytes of a frame are completed to a negative length by an older payload. To `msgsession` such a
  message is a push that may complete the waiting query. Proved instead: exactly the frames are
  dispatched, in order, and exactly the unfinished bytes stay, whatever lies behind the window, *if
  and only if* no read ends in a frame before its length is there. For `MSG` that is after one,
  two or three bytes; for `WSMSG` after one byte, or up to five when it has an extended length. It is
  proved once for any self-delimiting format and instantiated. Hypotheses: every frame, and every
  window shown to the recogniser, is shorter than 2^31 bytes (the recognisers compare as `int`); the
  limit on frames is exact. For any dispatch function whatsoever the inner loop ends.
* **Cross-thread output** (`AsyncNet`, `SessionSpec`, `SessionProofs`, `Session`). Each locked region
  is an atomic step. Under every interleaving, messages handed off followed by the queue are the
  accepted messages, in order, each once; a drain task is queued exactly while `m_notified` is set;
  messages wait for an open connection without a task only after a direct send has failed with an
  errno other than EAGAIN and EINPROGRESS. That case is real: of all steps exactly such a send brings
  it about, and it is shown to last until the session is bound anew or the connection closes. When
  only owners' threads send, then over any number of connections bound one after the other, what they
  were given and `m_list` are together the accepted messages, and of each open connection kernel
  output and write buffer are what it was given.
* **MD5** (`Md5`). Init, any sequence of updates and final compute the digest of RFC 1321, sections 3.1
  to 3.5, for any block function; updates may be split at will from any context. An update that
  brings pending and new bytes to 2^32 or more makes the block loop's `i + 63` wrap and read past the
  input; that bound is exact.
* **Base64** (`Base64`). The encoder's state machine computes the definition in section 4 of RFC 4648;
  the decoder's is specified on every input; decoding undoes encoding.

`Common` and `Bytes` hold shared datatypes and little-endian words.

## Model

| member | source | states |
|---|---|---|
| MsgSessionTheorems.CompletionIsFifo | src/service/msgsession.cpp:28-139 | in every run, completed callbacks followed by m_list are the submitted queries, each once and in submission order, and completions are final |
| MsgSessionTheorems.OneRequestInFlight | src/service/msgsession.cpp:65-75 | between steps a connected session with queries has sent exactly its front entry; the assertion of line 129 never fails; no request is sent twice over all connections |
| MsgSessionTheorems.RepliesAreCorrelated | src/service/msgsession.cpp:125-139 | in every run each callback completed by a frame has seen its own query's reply, if and only if no frame was, when its turn came, a push outside the registered events with a query waiting; in particular if the server pushes only registered events |
| MsgSessionTheorems.FrameKeepsCorrelation | src/service/msgdispatch.inl:30-46 | the same for one frame, from the state before it is dispatched |
| MsgSessionTheorems.NothingIsLostOnTheWay | src/service/msgsession.cpp:65-75 | the request in flight is exactly once in the write buffer, with the server, or on its way back, or its reply carried an event's command |
| MsgSessionTheorems.StrayPushIsTakenForAReply | src/service/msgdispatch.inl:30-46 | a run in which an unregistered push completes the waiting query and its reply then completes the next one |
| MsgSessionTheorems.OneRecoveryPath | src/service/msgsession.cpp:84-103 | exactly one of connect pending, connection up and retry timer armed holds in every reachable state |
| MsgSessionTheorems.ReplyCompletesItsQuery | src/service/msgsession.cpp:125-139 | when the next frame is a reply whose command is none of an event's, dispatching it completes the front query, whose reply it is |
| MsgSessionSteps.FrameIsRouted | src/service/msgdispatch.inl:29-64 | by table or by methods, a frame runs its event's callback and completes nothing, or completes the front query and no other, or is dropped without one; its callback's queries are accepted |
| MsgSessionSteps.RecvIsOneByOne | src/service/client.cpp:27-53 | several frames in one recv are handled one after the other until the connection ends |
| MsgSessionSteps.AssertionIsChecked | src/service/msgsession.cpp:129 | dispatching to a session that is not querying fails the assertion |
| MsgSessionSteps.QueryIsQueued | src/service/msgsession.cpp:28-32 | a query is stamped and queued last, and sent at once if the session is connected and idle |
| MsgSessionSteps.FrontIsSent | src/service/msgsession.cpp:65-75 | an idle connected session sends exactly its front entry and waits |
| MsgSessionSteps.TransmitIsExact | src/net/asyncnet.cpp:325-351 | a packet goes behind all given before, to the server at once exactly when nothing is buffered and the kernel takes it; or, on a hard error, the connection ends |
| MsgSessionSteps.FlushIsExact | src/net/asyncnet.cpp:535-559 | exactly the leading packets the kernel takes move to the server, in order; the rest stays or the connection ends |
| MsgSessionSteps.CloseIsExact | src/service/msgsession.cpp:47-64 | the end of a connection or attempt fails the request in flight first and otherwise exactly the entries older than fifteen seconds, accepts the callbacks' queries and arms the timer |
| MsgSessionSteps.TimerReconnects | src/service/msgsession.cpp:93-103 | the retry timer starts one attempt, pending or refused at once |
| MsgSessionSteps.ConnectionIsFresh | src/service/msgsession.cpp:33-46 | a new connection has nothing buffered or under way and gets the front entry |
| MsgSessionProofs.SweepIsExact | src/service/msgsession.cpp:104-124 | the sweep at time t fails exactly the entries with m_tstamp + 15000 <= t, in order, keeps the rest, and leaves no expired entry, whatever the callbacks submit |
| MsgSessionProofs.NextRests | src/service/msgsession.cpp:28-139 | every step, whatever happens re-entrantly inside it, keeps the invariant and only extends the history |
| MsgSessionProofs.OnFrameExtends | src/service/msgdispatch.inl:29-64 | dispatching one frame, callback and all, keeps the invariant and ends with the next request sent |
| MsgSession.MsgSession.RetryTimeout | src/service/msgsession.cpp:104-124 | the loop with its iterator computes the specified sweep |
| MsgSession.MsgSession.Recv | src/service/client.cpp:27-53 | several frames in one recv, the rest abandoned when the connection closes in between |
| MsgSession.MsgSession.Flush | src/net/asyncnet.cpp:535-559 | computes the specified drain of the session's write buffer |
| MsgSession.MsgSession.PerformAll | src/service/msgsession.cpp:28-139 | the object performs exactly the runs the theorems are about |
| IoBuffer.IoBufferEx.BasePopFront | src/ioBuffer.h:88-103 | drops stored bytes from the front, or refuses and changes nothing |
| IoBuffer.IoBufferEx.Compact | src/ioBuffer.h:198-205 | drops the consumed prefix exactly when the capacity would be reached, the window unchanged |
| IoBuffer.IoBufferEx.PushBack | src/ioBuffer.h:196-207 | appends to the window; prefix, size and capacity exactly, growth only after compaction |
| IoBuffer.IoBufferEx.Emplace | src/ioBuffer.h:208-219 | room for n bytes and the same window; prefix, size and capacity exactly, growth only after compaction |
| IoBuffer.IoBufferEx.PopFront | src/ioBuffer.h:220-228 | removes n bytes from the window, all of them if it has fewer |
| IoBuffer.IoBufferEx.Append | src/ioBuffer.h:79-87 | appends what was read, limited only by the room; the capacity stays within twice the live and requested bytes if and only if it need not grow or must for the live bytes alone |
| IoBufferHistory.Replay | src/ioBuffer.h:176-260 | over every history the window is the queue of bytes put in and not taken out, and prefix, size and capacity are computed exactly |
| IoBufferHistory.OperationsAreExact | src/ioBuffer.h:47-103 | prefix, stored bytes and capacity after every operation: when push_back and emplace compact, when each grows and to what |
| IoBufferHistory.WithinStoredPeak | src/ioBuffer.h:60-67 | after every history the capacity is within twice the peak of stored and requested bytes |
| IoBufferHistory.WithinLivePeak | src/ioBuffer.h:196-228 | after every history of modest operations it is within twice the peak of live and requested bytes |
| IoBufferHistory.BoundedIffModest | src/ioBuffer.h:79-87 | exactly the modest operations keep the bound on live and requested bytes |
| IoBufferHistory.AppendKeepsConsumedBytes | src/ioBuffer.h:79-87 | with other appends, capacity grows with the bytes ever read while one byte is live |
| Framing.ChunkingIndependence | src/service/client.cpp:27-53 | exactly the frames are dispatched, in order, and the unfinished bytes stay, whatever lies behind the window, if and only if no read ends in a frame before its length is there |
| Framing.ShortReadsMislead | src/msg/mydispatch.h:13-37 | there is memory with which every read that does adds one event nobody sent |
| Framing.BenignMemoryDelivers | src/service/client.cpp:27-53 | with memory that never makes a beginning look like 2^31 bytes or more, every way of cutting is right |
| Framing.NoShortReads | src/service/client.cpp:27-53 | the condition in terms of the bytes left unfinished after each read |
| Framing.ConsumeParses | src/service/client.cpp:36-45 | the inner loop dispatches exactly the whole frames of the window, then what the recogniser makes of the rest and the memory behind it |
| Framing.DispatchIsExact | src/service/client.cpp:37-43 | whatever dispatch claims to have consumed leaves the window, all of it if it claims more |
| Framing.NothingStaysWithoutDispatch | src/service/client.cpp:47-50 | without a dispatch function everything read is dropped |
| Framing.WaitsIffBelowTwoTo31 | src/msg/mydispatch.h:16-19 | the recogniser waits for the rest of a frame below 2^32 bytes if and only if the frame is below 2^31 |
| Client.Client.Drain | src/service/client.cpp:36-45 | the retry loop ends for any dispatch function and computes the specified consumption, with the buffer's own stale bytes behind the window |
| Client.Client.ReadOnce | src/service/client.cpp:29-51 | one read and the dispatching after it; which bytes of the buffer are stale |
| Client.Client.Recv | src/service/client.cpp:27-53 | reads all arriving bytes and ends in the state the framing theorems speak about; pieces of at most 0x1000 bytes are the reads |
| Streams.ReceiveMessages | src/service/client.cpp:27-53 | a client fed made messages in pieces delivers exactly them and buffers the unfinished one, if no read ends in a length |
| Streams.StaleBytesAreDelivered | src/msg/mydispatch.h:27-37 | a run on the client's own buffer in which a third message is delivered after two were sent |
| Msg.IsSelfDelimiting | src/msg/msg.h:15-20 | a MSG frame's bytes determine its length and content, and no shorter string looks like a frame |
| Msg.LengthDecidesWaiting | src/msg/mydispatch.h:15-19 | with four bytes of an unfinished frame the recogniser waits whatever lies behind; with fewer, stale bytes can mislead it |
| Msg.Make | src/msg/msg.cpp:6-43 | the written bytes are header and payload in the layout of the struct |
| Msg.FrameRoundTrip | src/msg/msg.h:8-24 | message_size, command, error and data read back what make wrote, whatever follows |
| Msg.FrameBytes | src/msg/msg.h:8-24 | every byte of a frame: length, command, error and payload, lowest byte first |
| Msg.EventsOfFrame | src/msg/mydispatch.h:13-37 | the client is given command, error and payload; the server command and payload, and nothing for an empty one |
| Msg.MessagesSurviveChunking | src/msg/mydispatch.h:27-37 | messages written with make and received in chunks are delivered once each, in order, intact, whatever lies behind the window, if and only if no read ends one, two or three bytes into a frame |
| Msg.RequestsSurviveChunking | src/msg/mydispatch.h:13-26 | the same for the server, which is given the messages with a payload |
| WsMsg.IsSelfDelimiting | src/wsmsg/wsmsg.h:21-32 | the same for WSMSG with its variable header |
| WsMsg.LengthDecidesWaiting | src/msg/mydispatch.h:15-19 | the same with the flags and the low four bytes of an extended length |
| WsMsg.SetSize | src/wsmsg/wsmsg.cpp:28-44 | length field and extended length, every other byte unchanged |
| WsMsg.SetMask | src/wsmsg/wsmsg.cpp:23-27 | mask bit and mask behind the extended length, every other byte unchanged |
| WsMsg.HeadLength | src/wsmsg/wsmsg.cpp:46-55 | the size computed from the payload size is the length of the head |
| WsMsg.Make | src/wsmsg/wsmsg.cpp:56-80 | the written bytes are the head and the payload |
| WsMsg.FrameRoundTrip | src/wsmsg/wsmsg.cpp:7-22 | size, get_mask, data and message_size read back what make wrote, across the boundaries, whatever follows |
| WsMsg.FrameBytes | src/wsmsg/wsmsg.cpp:23-80 | every byte of a frame, for payloads of at most 125 bytes, below 2^32 and above, with and without a mask |
| WsMsg.FramesSurviveChunking | test/wstest.cpp:13-25 | frames written with make and received in chunks are dispatched once each, in order, whatever lies behind the window, if and only if no read ends in a frame before its length is there |
| AsyncNet.SendKeepsOrder | src/net/asyncnet.cpp:325-351 | a message is taken exactly when nothing is buffered and the kernel takes it, buffered behind the others when something is or the send would block, and closes the connection on a hard error; EPOLLOUT armed exactly while something is buffered |
| AsyncNet.FlushKeepsOrder | src/net/asyncnet.cpp:535-559 | exactly the leading messages the kernel takes leave the buffer, in order; the rest stays if the next would block and is lost with the connection if it fails hard |
| AsyncNet.AsyncNets.Flush | src/net/asyncnet.cpp:535-559 | computes the specified connection, all others unchanged |
| Session.Session.SendAll | src/service/session.cpp:24-40 | the loop computes the specified hand-off |
| Session.Session.PerformAll | src/service/session.cpp:8-79 | the object performs exactly the runs the theorems are about |
| SessionProofs.MessagesAreConserved | src/service/session.cpp:24-79 | under every interleaving, handed-off messages followed by m_list are the accepted ones, in order, each once |
| SessionProofs.WakeUpsAreAccounted | src/service/session.cpp:8-47 | one task queued exactly while m_notified; waiting messages before an open connection have a task unless the last direct send failed hard |
| SessionProofs.SendIsExact | src/service/session.cpp:48-72 | session::send in every case: handed off and not queued when taken or on the owner's thread, queued with one task for the owner when it would block, queued alone otherwise |
| SessionProofs.BindAndWakeDrain | src/service/session.cpp:15-47 | binding and the task hand off the queue in order until it is empty or the connection has closed, or wake the owner from another thread |
| SessionProofs.PeerStepIsExact | src/net/asyncnet.cpp:535-574 | a connection's own steps leave the session and all other connections alone |
| SessionProofs.StallsIff | src/service/session.cpp:62-73 | a step leaves messages waiting without a task if and only if it is a direct send, on an empty queue with no task pending, that fails with another errno |
| SessionProofs.StallPersists | src/service/session.cpp:53-57 | from then on every step but binding or closing leaves them waiting and only adds to them |
| SessionProofs.BindingRevives | src/service/session.cpp:41-47 | binding always ends such a wait |
| SessionProofs.WakeUpEmptiesTheList | src/service/session.cpp:16-21 | the task on the owner's thread hands off everything accepted |
| SessionProofs.OwnerOutputIsInOrder | src/service/session.cpp:48-61 | when only owners' threads send, what successive connections were given, and m_list, are the accepted messages; of each, kernel output and write buffer are what it was given |
| SessionProofs.OneConnectionOutputIsInOrder | src/service/session.cpp:48-61 | with one connection, kernel output, write buffer and m_list are the accepted messages until close, of which a prefix is taken |
| Md5.SplitInvariance | src/md5.cpp:129-161 | two updates do what one with all the bytes does, from every context |
| Md5.CounterAdds | src/md5.cpp:136-139 | the two words with their carry count bits modulo 2^64 |
| Md5.PaddedIsWholeBlocks | src/md5.cpp:173-179 | the padded message is the least string of whole blocks with message, 0x80, zeros and the bit length in its last eight bytes |
| Md5.BlocksInOrder | src/md5.cpp:141-155 | every block updates the state left by the blocks before it, once |
| Md5.InitialBytes | src/md5.cpp:116-124 | the initial state is the sixteen bytes of section 3.3 of RFC 1321 |
| Md5.Md5Context.Update | src/md5.cpp:129-161 | state, count and pending bytes are those of folding the block function over what was pending and the input |
| Md5.LoopEndsIff | src/md5.cpp:149-150 | the block loop ends where less than a block remains if and only if pending and new bytes are fewer than 2^32 |
| Md5.Md5Context.AddBits | src/md5.cpp:136-139 | the counter words are updated to the sum modulo 2^64 |
| Md5.Md5Context.Absorb | src/md5.cpp:141-160 | whole blocks transformed, the remainder buffered |
| Md5.Md5Context.Final | src/md5.cpp:165-186 | the digest of what was fed plus padding and length, byte by byte, and a wiped context |
| Md5.Hash | src/md5.cpp:376-389 | init, any updates and final give the RFC's digest of all the bytes: words a to d of the final state, lowest byte first |
| Base64.TablesAreTheAlphabet | src/base64.cpp:22-138 | the encode table is the RFC's alphabet, the decoder takes exactly its characters, each for its place, and padding is '=' |
| Base64.TablesAreInverse | src/base64.cpp:22-138 | the decode table undoes the encode table, which never yields the padding character |
| Base64.SextetsByOctet | src/base64.cpp:154-169 | the state machine's shifts cut out the four 6-bit groups of section 4 of RFC 4648 |
| Base64.CharacterAt | src/base64.cpp:140-189 | the k-th character of the encoding stands for bits 6k to 6k+5, or is '=' behind the last octet |
| Base64.Encode | src/base64.cpp:140-189 | writes exactly the RFC's encoding, 4*ceil(n/3) characters and a NUL, and nothing else |
| Base64.Decode | src/base64.cpp:191-239 | returns and writes exactly the octets of the digits before the first padding character, or nothing on a bad length or character; writes only the first 3*(n/4) places |
| Base64.DecodeUndoesEncode | src/base64.cpp:140-239 | decoding the encoding of any byte string gives it back |

## Left out

- epoll, sockets, timers, DNS, fork, signals and logging: their outcomes are choices of the environment.
- Hypotheses of the recovery theorem: the address parses, and socket and timer creation succeed; otherwise no callback follows and no new attempt is made (src/net/asyncsys.cpp:108-123, src/net/asyncnet.cpp:222-225).
- Hypotheses of the correlation theorem: the server answers a request at most once, on the connection it came from; the clock does not go backwards.
- User callbacks of msgsession are assumed to be set and not to throw out of __onclose, where no handler protects the state (src/service/msgsession.cpp:59).
- msgsession::stop and the heartbeat's onend drop the client while its descriptor stays registered; neither is a step.
- Lost wake-ups of the eventfd (src/net/asyncnet.cpp:522-525): the trigger queue runs each task at most once.
- Wire order when threads mix: __realsend bypasses the write buffer, so only hand-off order is promised then.
- Short kernel writes: the kernel takes whole messages or fails, as asserted at src/net/asyncnet.cpp:348.
- Reuse of a descriptor number: a reopened descriptor is a new connection.
- Md5.Md5Context.Update: the block function is a parameter, so the 64 steps of MD5Transform are not modelled; words have four bytes as the source's comment says, although the typedef is wider on LP64; pending and new bytes of 2^32 or more, with which the loop does not end (Md5.LoopEndsIff), are excluded.
- Md5.Hash: gives the 16 bytes; the "%x" printing of md5::encode and the file helpers are not modelled.
- Base64.Encode: the 32-bit counters are unbounded here; they do not wrap below 3*2^30 input bytes.
- The ashan::base64 wrappers, which keep the NUL and unused tail bytes.
- WsMsg.FramesSurviveChunking: the command and error words that the test's WS struct reads from the payload are not modelled.
- PBMSG frames and protobuf parsing; the length prefix is that of MSG with a four-byte header.
- ioBuffer members that ioBufferEx hides (single-element push_back, emplace_back, indexing, assignment), moved-from and zero-capacity buffers.
- Framing.ChunkingIndependence: windows and frames are shorter than 2^31 bytes; the memory behind the window is any memory, of which the stale bytes of the client's buffer are one case.
- IoBufferHistory.Replay: set_expand_size, which nothing calls, is not modelled; append asks for the default 0x1000 bytes.
- session::send of a list of messages, which is a loop over send; msgserver routing; connectpool, heartbeat, condition, pool, http, redis, mysql, kafka.
