# A model of the chat server's network stack

The repository is a reactor chat server: connections are accepted on one event loop and served on others, bytes
go through growable buffers, messages are framed and packed by a small binary codec, and sessions are kept in a
list with one live session for a user. This project models that logic in Dafny and proves what it is meant to
guarantee. The classes follow the C++ objects and change their fields in place; each is proved against
specification functions on values, and the main results are theorems about those functions and about transition
systems over arbitrary runs.

- `Sequences`, `Bytes`, `ByteBuffer`: concatenation; integers in both byte orders; the growable buffer as a class
  over an array, refined to a byte sequence.
- `Varint`, `Checksum`, `ProtocolStream`: the length encoding (section 7.6 of DWARF Version 5), the Internet
  checksum (RFC 1071), the field writer and reader.
- `Framing`, `ChatSession`, `Stream`: frames, the reading loop for any package handler, sessions that reply on their
  connections, and streams of messages cut anywhere.
- `Connection`, `EventLoop`, `TcpServer`: the output path and life of a connection, the task queue with its
  eventfd, the connection table and the teardown handshake between two loops, as transition systems with
  inductive invariants, and the classes that take their steps.
- `Channel`, `PollPoller`, `EpollPoller`: dense array, map and indexes inside aliased channels; the epoll index
  against the kernel's set.
- `TimerQueue`, `ConfigText`, `ConfigFileReader`, `CStrings`, `HexDump`, `Decimal`, `ChatServer`: timers with
  repeat counts, the configuration file's parser and printer, the hex dump, the session list.
- `EndToEnd`: a sending connection in any run, any cutting of what it has sent, the receiving session, and its replies
  on the way back; sends from other threads through the task queue.

What write, readv, poll, epoll_wait, the JSON parser, the stores behind the server, the clock and the scheduler do is
a parameter of a step or a choice of the run. A check of a connection's state and the assignment after it are one
step, as the comments in net/TcpConnection.cpp ask for. In the transition systems `Run` applies any list of steps, and
a step that is not possible changes nothing.

Where the code does less than its names or comments suggest, the model follows the code, and the table has the exact
condition under which it meets the promise: `ByteBuffer.shrink` beyond an int, the checksum of very long buffers, the
32-bit length reader, connection names cut off, half-closes after a disconnection, tasks queued by timer and frame
callbacks, stale timer keys and forgotten repeat counts, poll slots that stay skipped once a channel has asked for
nothing, configuration lines over 127 chars, and logins that overlap. Where that helps, a run that fails it stands
beside it. A login with a wrong password still marks the session as logged in.

Verify with `dafny verify dfyconfig.toml`.

## Model

| member | source | states |
|---|---|---|
| EndToEnd.PrefixDelivered | net/TcpConnection.cpp:118-179 | for a sender in any run (any partial writes, errors, closes) and any cutting of any first part of its output into chunks: packages handed over, session, replies, reason to stop and unread bytes are those the messages sent and not dropped determine, and the log is a prefix of those messages |
| EndToEnd.AllDelivered | chatserversrc/ChatSession.cpp:53-126 | with the backlog written out and everything arrived, no package over 10 MiB, none refused and no handler throwing, every message not dropped has been delivered in order and nothing is left unread |
| EndToEnd.NothingLost | net/TcpConnection.cpp:118-179 | in a run in which no write answers that the peer is gone nothing is dropped: wire and output are all the messages offered |
| EndToEnd.EverythingDelivered | chatserversrc/ChatSession.cpp:53-126 | and with the backlog written out and everything arrived, no package too big, refused or throwing, all messages offered have been delivered in order and nothing is left unread |
| EndToEnd.RequestsAnswered | chatserversrc/ChatSession.cpp:140-207 | for a client in any run and a server's established connection in any run, the session's calls of send being the replies that the client's delivered messages call for, with any other steps in between (writes, other threads' sends, closes): the offers made have in them, in order, a first part of those replies, all of them as long as the connection stays connected, and all that ever left it or waits to are the offers not dropped, each whole and in order |
| EndToEnd.RepliesFollow | net/TcpConnection.cpp:73-179 | the server's side of it, over every run of an established connection with any steps in between: of what the session hands over a first part is offered, in order, all of it as long as the connection stays connected, and wire and output together are the offers not dropped |
| EndToEnd.EventReplies | net/TcpConnection.cpp:306-326 | the calls of send in the steps of a readable event are exactly the replies the session has made in it |
| EndToEnd.OwnMade | net/TcpConnection.cpp:73-90 | over every run of an established connection, the loop thread's sends that are offered are the first of its calls, and all of them as long as it is connected |
| EndToEnd.PostedMade | net/TcpConnection.cpp:73-134 | over every run, the sends that came by tasks and are offered are the first of them, and all of them until the disconnection |
| EndToEnd.RepliesOffered | net/TcpConnection.cpp:73-90 | a connected session offers exactly its replies, in order, whatever write returns; any other connection does not change |
| EndToEnd.ThreadsDelivered | net/EventLoop.cpp:164-175 | tasks of any kind queued by any threads in any interleaving, some of them sends on one connection, and the loop thread's own sends: what the connection is offered are a first part of the tasks' parcels in the order of enqueueing and its own, put together as they came, and the receiver is where the messages not dropped lead to, as far as they have arrived in any chunks |
| EndToEnd.SenderStream | chatserversrc/TcpSession.cpp:49-87 | in every run, wire and output buffer together are the packed parcels that were not dropped, in order |
| EndToEnd.OnReadable | net/TcpConnection.cpp:306-326 | one readable event: what a scatter read appends is drained, the session replies on its own connection, end of file and errors close, a session that gives up asks for a forced close; these are the steps the connection takes, in this order |
| EndToEnd.RefusedIsClosed | chatserversrc/ChatSession.cpp:85-91 | an event in which the session gives up asks for a close, and once that task has run the connection has ended, whatever happens in between; an event in which it does not give up leaves the connection connected |
| EndToEnd.ForceCloseEnds | net/TcpConnection.cpp:226-246 | on a living connection a forced close comes about, whatever steps lie between the request and the task |
| Stream.Receive | chatserversrc/ChatSession.cpp:53-98 | receiving chunks of any sizes, each read as far as one scatter read goes, through the real buffer comes to one pass over all the bytes: same packages, same session, same unread rest, and the replies sent |
| Stream.DeliversMessages | chatserversrc/ChatSession.cpp:53-126 | a stream of packed messages followed by any bytes: packages, session, reason to stop and unread bytes are exactly those of the message-level receiver |
| Stream.DeliversPrefix | chatserversrc/ChatSession.cpp:53-98 | the first n octets of a stream: exactly its whole frames are handed over as far as the messages let the receiver go, with the reason to stop and the unread bytes, which end in exactly the incomplete tail |
| Stream.DigestLogs | chatserversrc/ChatSession.cpp:100-126 | the message-level receiver logs exactly the messages handed over, in order, and only adds to its replies |
| Stream.ToldToLogIn | chatserversrc/ChatSession.cpp:193-198 | messages that come before any login are all read, and each is answered exactly once, in order, with its own command and number and the not-login text |
| Stream.EveryReplyAnswers | chatserversrc/ChatSession.cpp:130-208 | over any stream: every reply has the number of a message handed over and its command, but for a kick |
| Stream.TailWaits | chatserversrc/ChatSession.cpp:56-84 | the incomplete last frame of a stream is waited for if and only if its header is not there yet or announces at most 10 MiB; else it is too big |
| Framing.FrameRoundTrip | chatserversrc/TcpSession.cpp:49-60 | a frame in front of any bytes comes off whole and leaves those bytes, if and only if its package has at most 10 MiB; else it is too big |
| Framing.PartialFrame | chatserversrc/ChatSession.cpp:60-84 | every proper prefix of a frame is waited for, unless four header octets already say it is too big |
| Framing.NegativeSize | chatserversrc/ChatSession.cpp:60-84 | a negative size wraps around: from -4 on the frame counts as arrived and the string for it throws, below the loop waits for nearly 2^64 octets |
| Framing.FrameInverse | chatserversrc/ChatSession.cpp:78-90 | whatever is taken off arbitrary bytes is the frame of the package handed over |
| Framing.NextFrameMonotone | chatserversrc/ChatSession.cpp:56-90 | further input changes the decision of a turn only while the loop waits |
| Framing.DrainAppend | chatserversrc/ChatSession.cpp:53-98 | bytes that arrive after a pass count as if they had been there, for any package handler |
| Framing.DrainConserves | chatserversrc/ChatSession.cpp:53-98 | the bytes consumed by a pass are exactly the frames of the packages handed over, and a waiting pass leaves an incomplete frame |
| Framing.DrainFolds | chatserversrc/ChatSession.cpp:53-98 | for any handler: the session is the fold of the handler over the packages, every verdict but the last is to go on, and the reason to stop is the last verdict's, or the next header's if that was to go on; a refusal or a too big frame is what ends in a forced close |
| Framing.FragmentationIrrelevant | chatserversrc/ChatSession.cpp:53-98 | for any handler, any bytes and any cutting into chunks, feeding chunk by chunk equals one pass over the whole |
| ChatSession.PackMessage | chatserversrc/TcpSession.cpp:27-37 | sends the frame of a package with length, two octets nobody sets, and the three fields; nothing when the connection is gone |
| ChatSession.SendPackage | chatserversrc/TcpSession.cpp:49-87 | one header and the package, sent only while the connection is alive |
| ChatSession.ProcessBody | chatserversrc/ChatSession.cpp:100-126 | the three reads recover command, sequence number and text of any package that was sent, whatever its unset octets are |
| ChatSession.ProcessUnread | chatserversrc/ChatSession.cpp:100-126 | any package: too short for its two numbers it is refused and changes nothing; with a text that is refused or undefined it changes the sequence number only; else it is the message that the octets say |
| ChatSession.BodySize | chatserversrc/TcpSession.cpp:27-37 | the size of a package is header, two numbers, the length's varint and the text |
| ChatSession.ChatSession.ReadMessage | chatserversrc/ChatSession.cpp:102-126 | three reads on any bytes yield the message, or fail, as specified |
| ChatSession.ChatSession.Handle | chatserversrc/ChatSession.cpp:140-207 | the command switch: new session, verdict, and the replies, which are sent on the session's connection and nothing else is; a handler may throw before it replies |
| ChatSession.DispatchVerdict | chatserversrc/ChatSession.cpp:140-208 | a message is refused exactly if the session is logged in and does not know the command, and raises exactly if it is a login or a known command after a login and the code below throws; login flag, number and log afterwards |
| ChatSession.DispatchReplies | chatserversrc/ChatSession.cpp:140-320 | the replies of an accepted message: the request's number and command each, but for the kick of a session that logs in again; one not-login text before a login, the answer's text to logins, lists and histories, and a chat message back if and only if the session is listed |
| ChatSession.ChatSession.Reply | chatserversrc/TcpSession.cpp:22-87 | one reply is one send of its frame on the connection |
| ChatSession.ChatSession.ProcessPackage | chatserversrc/ChatSession.cpp:100-208 | three reads, refusals, exceptions and command switch: new session and verdict are those of the specification, on any bytes, and the connection has sent exactly the replies |
| ChatSession.ChatSession.TakeFrame | chatserversrc/ChatSession.cpp:56-90 | one turn on the buffer object does what the decision on its content says, with unsigned 64-bit wrap-around of a negative size, and takes at least four octets off |
| ChatSession.ChatSession.OnRead | chatserversrc/ChatSession.cpp:53-98 | the reading loop ends; packages, session, verdict and unread bytes are those of the specification, and the connection has sent exactly the replies |
| ChatSession.ProcessExtends | chatserversrc/ChatSession.cpp:100-208 | handling a package only adds to the replies and to the log |
| ByteBuffer.ByteBuffer.constructor | net/ByteBuffer.h:29-34 | empty content, eight octets in front, the initial size behind |
| ByteBuffer.ByteBuffer.Append | net/ByteBuffer.h:191-197 | content becomes content ++ bytes, whichever way the room is made; in place when there is room |
| ByteBuffer.ByteBuffer.EnsureWritableBytes | net/ByteBuffer.h:204-213 | always delivers the room and keeps the content; changes nothing when there was room |
| ByteBuffer.ByteBuffer.MakeSpace | net/ByteBuffer.h:426-448 | growing or sliding keeps the content and makes the room; the early return is never reached |
| ByteBuffer.CopyLeft | net/ByteBuffer.h:441-443 | the overlapping move to lower addresses preserves the data and touches nothing else |
| ByteBuffer.ByteBuffer.Retrieve | net/ByteBuffer.h:110-125 | drops the first octets, or refuses and changes nothing |
| ByteBuffer.ByteBuffer.RetrieveUntil | net/ByteBuffer.h:127-138 | drops up to a position inside the readable region, or refuses |
| ByteBuffer.ByteBuffer.RetrieveAsString | net/ByteBuffer.h:171-179 | returns and drops the first octets; empty and unchanged when there are too few |
| ByteBuffer.ByteBuffer.RetrieveAllAsString | net/ByteBuffer.h:166-169 | returns everything and leaves nothing |
| ByteBuffer.ByteBuffer.HasWritten | net/ByteBuffer.h:225-232 | extends the content by octets already in the writable region |
| ByteBuffer.ByteBuffer.Unwrite | net/ByteBuffer.h:234-241 | cuts octets off the end, or refuses |
| ByteBuffer.ByteBuffer.Prepend | net/ByteBuffer.h:384-393 | content becomes bytes ++ content exactly when they fit in front |
| ByteBuffer.ByteBuffer.Shrink | net/ByteBuffer.h:395-402 | keeps the content if and only if its size fits an int; beyond, it throws or truncates as the cast says |
| ByteBuffer.ByteBuffer.ToStringPiece | net/ByteBuffer.h:181-184 | the size goes through int: throws when that is negative, else a prefix of that many octets |
| ByteBuffer.ByteBuffer.Swap | net/ByteBuffer.h:36-41 | exchanges the contents of two buffers |
| ByteBuffer.ByteBuffer.AppendInt | net/ByteBuffer.h:246-270 | appends a signed integer of any width in network order |
| ByteBuffer.ByteBuffer.PeekInt | net/ByteBuffer.h:312-352 | decodes the integer at the front; -1 when there are too few octets |
| ByteBuffer.ByteBuffer.ReadInt | net/ByteBuffer.h:276-308 | decodes and drops the integer at the front, or -1 with nothing changed |
| ByteBuffer.ByteBuffer.PrependInt | net/ByteBuffer.h:358-382 | puts the encoding of an integer in front, or refuses |
| ByteBuffer.ByteBuffer.ReadFd | net/ByteBuffer.cpp:14-66 | whatever count the scatter read delivers, in place or through the spill buffer, it is one append |
| ByteBuffer.ByteBuffer.Scatter | net/ByteBuffer.cpp:18-32 | the two vectors together hold the octets in order, and what was there stays |
| Bytes.IntRoundTrip | net/ByteBuffer.h:246-352 | a signed integer of any width read back from network order is itself |
| Bytes.LittleEndianRoundTrip | chatserversrc/TcpSession.cpp:54-60 | a number that fits is read back from host order |
| Varint.Write7BitEncoded | net/ProtocolStream.cpp:41-66 | appends the encoding of the value |
| Varint.Read7BitEncoded | net/ProtocolStream.cpp:69-102 | returns the positional value of the digits up to the first final octet, modulo the width |
| Varint.DecodeEncode | net/ProtocolStream.cpp:41-102 | decode(encode(v)) = v for every v |
| Varint.EncodeValue | net/ProtocolStream.cpp:41-102 | encode(decode(s)) = s exactly when s is one octet or ends in a non-zero one |
| Varint.Minimal | net/ProtocolStream.cpp:41-66 | no well-formed string of the same value is shorter than the encoding |
| Varint.PrefixFree | net/ProtocolStream.cpp:69-102 | no encoding is a proper prefix of another |
| Varint.EncodedLength | net/ProtocolStream.cpp:41-66 | an encoding has at most k octets if and only if the value is below 128^k |
| Varint.EncodedLengths | net/ProtocolStream.cpp:41-66 | 1 to 5 octets for 32 bits, 1 to 10 for 64, and at most 5 exactly below 2^35 |
| Varint.ReaderOnWriter | net/ProtocolStream.cpp:255-280 | in front of any bytes a reader finds exactly the encoding, and it ends within five octets if and only if the value is below 2^35 |
| ProtocolStream.LengthRoundTrip | net/ProtocolStream.cpp:260-290 | the 32-bit reader on the 64-bit writer's output, for every n: below 2^35 it takes exactly the field and yields n modulo 2^32, so n itself if and only if n is below 2^32; from 2^35 on it leaves its five octets |
| ProtocolStream.LengthExact | net/ProtocolStream.cpp:260-298 | what the reader takes for a length, for any octets: at most five with the last one below 128; fewer than five that all announce a further one are refused, five such are undefined |
| ProtocolStream.MaximumExact | net/ProtocolStream.cpp:143-167 | with a maximum the same texts are read, but for those that are longer, which leave the cursor alone |
| Checksum.Checksum | net/ProtocolStream.cpp:21-38 | for every buffer of an int size: the result is the RFC 1071 checksum if and only if the plain sum of the words is below 2^32, as it is up to 131074 octets; the fold ends |
| Checksum.LongerOverflows | net/ProtocolStream.cpp:23-28 | 131074 is tight: every longer size has a buffer whose sum does not fit |
| Checksum.WrapShows | net/ProtocolStream.cpp:23-35 | losing a carry out of 32 bits always changes the folded sum |
| Checksum.OnesSumIsFoldedSum | net/ProtocolStream.cpp:34-37 | folding a plain sum gives the one's-complement sum (section 4.1 of RFC 1071) |
| Checksum.SelfChecking | net/ProtocolStream.cpp:21-38 | an even-length buffer with its checksum as a further word sums to all ones, so its checksum is 0 |
| Checksum.ByteOrderIndependence | net/ProtocolStream.cpp:21-38 | exchanging the octets of every word exchanges the octets of the sum (section 2 of RFC 1071) |
| ProtocolStream.BinaryStreamWriter.WriteInt32 | net/ProtocolStream.cpp:341-348 | appends the field, and the package stays the encoding of the fields written |
| ProtocolStream.BinaryStreamWriter.WriteShort | net/ProtocolStream.cpp:365-372 | the same for 16 bits |
| ProtocolStream.BinaryStreamWriter.WriteChar | net/ProtocolStream.cpp:373-380 | the same for one octet |
| ProtocolStream.BinaryStreamWriter.WriteCString | net/ProtocolStream.cpp:315-332 | the same for a text: its varint length and its octets |
| ProtocolStream.BinaryStreamWriter.Flush | net/ProtocolStream.cpp:393-398 | puts the total length, modulo 2^32, in network order over the first four octets and keeps every field |
| ProtocolStream.PackageRoundTrip | net/ProtocolStream.cpp:104-398 | matching reads return any sequence of fields written, and end at the end of the input |
| ProtocolStream.RoundTripAt | net/ProtocolStream.cpp:104-398 | the same anywhere inside a buffer, with anything behind it |
| ProtocolStream.FieldRoundTrip | net/ProtocolStream.cpp:143-248 | one field read back, with the cursor behind it |
| ProtocolStream.CursorSafe | net/ProtocolStream.cpp:117-290 | one read, successful or not, moves the cursor forward and never past the end |
| ProtocolStream.RunStaysInside | net/ProtocolStream.cpp:117-290 | the same for every sequence of reads |
| ProtocolStream.BinaryStreamReader.ReadLengthWithoutOffset | net/ProtocolStream.cpp:260-290 | the scan of at most five octets finds the same length as the specification, or refuses; five continuation octets are undefined |
| ProtocolStream.BinaryStreamReader.ReadString | net/ProtocolStream.cpp:143-168 | text and cursor are those of the specification, with and without a maximum |
| ProtocolStream.BinaryStreamReader.ReadCString | net/ProtocolStream.cpp:117-142 | the same with the caller's room as maximum |
| ProtocolStream.BinaryStreamReader.ReadInt32 | net/ProtocolStream.cpp:196-209 | number and cursor are those of the specification; a too short input refuses |
| ProtocolStream.BinaryStreamReader.ReadShort | net/ProtocolStream.cpp:221-235 | the same for 16 bits |
| ProtocolStream.BinaryStreamReader.ReadChar | net/ProtocolStream.cpp:236-248 | the same for one octet |
| ProtocolStream.BinaryStreamReader.ReadLength | net/ProtocolStream.cpp:249-259 | moves behind the length field only when it was read |
| Connection.RunKeepsInv | net/TcpConnection.cpp:118-401 | every run of every interleaving keeps: wire ++ output buffer = messages not dropped; writing iff output non-empty (nothing once disconnected); half-close before disconnection only with empty output; callbacks at most once |
| Connection.SendConserves | net/TcpConnection.cpp:118-179 | sending neither loses, repeats nor reorders bytes, whatever write returns |
| Connection.FlushConserves | net/TcpConnection.cpp:328-365 | nor does writing out the backlog |
| Connection.SendExact | net/TcpConnection.cpp:118-179 | a message sent is given up if and only if nothing was waiting and the peer is gone; otherwise the kernel takes what write reports, only if nothing was waiting, and the rest goes behind the backlog |
| Connection.FlushExact | net/TcpConnection.cpp:327-365 | the kernel takes what write reports of the backlog, and the connection ends if and only if there was a backlog and no octet was taken |
| Connection.RunDropsNothing | net/TcpConnection.cpp:118-179 | no run in which every write answers something else than that the peer is gone has dropped a message |
| Connection.PhaseExact | net/TcpConnection.cpp:181-400 | the phase after any step: which steps end a living connection, which announce the end, and which callbacks a step makes |
| Connection.RunLives | net/TcpConnection.cpp:269-400 | in every run: the channel is read exactly while the connection is up, with exactly one up callback before and one down callback after |
| Connection.HalfCloses | net/TcpConnection.cpp:181-200 | the output is half-closed exactly by a shutdown task that finds the channel not writing and by the write that uses up the backlog of a connection that is going down |
| Connection.RemovalExact | net/TcpConnection.cpp:292-304 | in every run the last step takes the channel off the poller, unless the connection is going down or has output from before it came up: then the channel still wants something and stays |
| Connection.RunAdvances | net/TcpConnection.cpp:181-304 | the phase only advances, Disconnected is absorbing, and logs and counts only grow |
| Connection.EventClosesOnce | net/Channel.cpp:73-122 | for every revents mask and whatever the message callback does, one event closes a connection at most once and a closed one not again; the masks that must close it do |
| Connection.EventExact | net/Channel.cpp:88-122 | an event without a hang-up, an error or a failed read hands what was read to the message callback, then writes the backlog if the kernel wants more, and does nothing else |
| Connection.StepNotices | net/TcpConnection.cpp:118-179 | one callback at most per step: the high-water one if and only if the backlog rises to the mark from below it, with the new size; write-complete, if wanted, if and only if the step hands over the last octet there is |
| Connection.DrainedThenHalfClosed | net/TcpConnection.cpp:338-360 | a shutdown that had to wait is done by exactly the write that uses the backlog up |
| Connection.HalfCloseExact | net/TcpConnection.cpp:192-200 | over every run: the task of a shutdown half-closes over unsent output if and only if the connection was disconnected before and left output behind |
| Connection.HalfCloseAfterDisconnection | net/TcpConnection.cpp:181-200 | witness: after a disconnection a queued half-close does go out over unsent output |
| Connection.TcpConnection.SendNow | net/TcpConnection.cpp:118-179 | the class on a real buffer takes the step of the transition system |
| Connection.TcpConnection.SendMessage | net/TcpConnection.cpp:73-90 | the same for send in the loop thread, which does nothing unless connected |
| Connection.TcpConnection.OnWrite | net/TcpConnection.cpp:328-365 | the same for handleWrite, with peek and retrieve on the buffer |
| Connection.TcpConnection.OnClose | net/TcpConnection.cpp:367-392 | the same for handleClose |
| Connection.TcpConnection.ConnectEstablishedTask | net/TcpConnection.cpp:269-291 | the same for connectEstablished |
| Connection.TcpConnection.ConnectDestroyedTask | net/TcpConnection.cpp:293-304 | the same for connectDestroyed, counting whether Channel::remove reaches the poller |
| Connection.TcpConnection.RequestForceClose | net/TcpConnection.cpp:226-235 | the same for the check and set of forceClose |
| Connection.TcpConnection.ShutdownNow | net/TcpConnection.cpp:192-200 | the same for shutdownInLoop |
| EventLoop.ExactlyOnceInOrder | net/EventLoop.cpp:164-175 | in every interleaving executed ++ rest of batch ++ pending is the enqueue history: task k is executed k-th and once |
| EventLoop.NoLostWakeup | net/EventLoop.cpp:94-175 | about to poll with the counter at zero, only tasks whose queueInLoop has not returned or that a timer or the frame callback queued are pending |
| EventLoop.SignalledByOrigin | net/EventLoop.cpp:94-175 | the exact condition by origin: no run polls with the counter at zero over a returned task of the origin if and only if the loop thread did not queue it from a timer callback or from the frame callback |
| EventLoop.TimerTaskWaits | net/EventLoop.cpp:164-175 | witness: a task queued by a timer callback waits for the poll's timeout |
| EventLoop.FrameTaskWaits | net/EventLoop.cpp:116-123 | witness: so does one queued by the frame callback |
| EventLoop.QuitEndsPoll | net/EventLoop.cpp:140-150 | another thread's quit() that came after the loop's own test and has returned ends the poll |
| EventLoop.QuitIsFinal | net/EventLoop.cpp:94-150 | in every run: once the flag is set during the loop it stays set, and the loop does not go past its next test of it |
| EventLoop.LoopOrder | net/EventLoop.cpp:94-138 | the loop goes only from one place of its round to the next, and out of it only by the test of the flag |
| EventLoop.QuitExact | net/EventLoop.cpp:94-150 | which steps set the flag and that the start of the loop clears it, and how many foreign quits have not written yet |
| EventLoop.CounterExact | net/EventLoop.cpp:140-175 | the eventfd goes up by one for each quit and each queued task that is to wake the loop, as far as it goes, and its handler resets it |
| EventLoop.TasksExact | net/EventLoop.cpp:164-175 | what any step does to the tasks: pushed last, swapped out as a whole, executed from the front, and open until their call returns |
| EventLoop.EveryPushCounts | net/EventLoop.cpp:164-169 | over every run each push of another thread is in the history once |
| EventLoop.RunKeepsInv | net/EventLoop.cpp:94-138 | the invariant behind these holds in every run |
| EventLoop.EventLoop.QueueInLoop | net/EventLoop.cpp:164-175 | both parts of queueInLoop with nothing in between: two steps of the system, with a wakeup exactly when the code makes one |
| EventLoop.EventLoop.PushBack | net/EventLoop.cpp:166-169 | the critical section by itself, as one step: other threads may take steps behind it |
| EventLoop.EventLoop.WakeIfNeeded | net/EventLoop.cpp:171-174 | the rest, as one step of the thread that pushed |
| EventLoop.EventLoop.Wakeup | net/EventLoop.cpp:342-367 | adds one to the eventfd, or fails at its maximum |
| EventLoop.EventLoop.DoOtherTasks | net/EventLoop.cpp:393-409 | runs exactly what is pending at the swap, in order, with any steps of other threads between any two of its own, also in the middle of a functor's queueInLoop; what is queued since stays for the next pass, with the counter positive if any of it is owed |
| EventLoop.EventLoop.StepElsewhere | net/EventLoop.cpp:140-175 | one step of another thread on the loop object, in its queueInLoop or quit: a step of the system, taken exactly when the thread is there, and the loop thread's place and batch stay |
| TcpServer.TeardownHandshake | net/TcpServer.cpp:80-126 | over every run whose numbers are not cut off: each connection is in the table, or has exactly one connectDestroyed pending or done; torn down only when disconnected, and its removal reaches the poller |
| TcpServer.QuietTable | net/TcpServer.cpp:80-126 | over every run whose numbers are not cut off, once every queued functor has been run: the table holds exactly the connections that have not ended, each under its name, and every other connection has been closed once and torn down once |
| TcpServer.ConnectExact | net/TcpServer.cpp:80-104 | the next connection has the options and the loop given and its name leads to it; established at once on the base loop and by a functor elsewhere; the others are left alone |
| TcpServer.PeersStay | net/TcpServer.cpp:80-126 | in every run the loop and the options of a connection are for life |
| TcpServer.NextKeepsInv | net/TcpServer.cpp:80-126 | every step of either loop keeps the handshake invariant |
| TcpServer.NameIsNew | net/TcpServer.cpp:84-87 | a name differs from all earlier ones if and only if its number was not cut off by the 32-char buffer |
| TcpServer.EightDigitsFit | net/TcpServer.cpp:84-87 | for ids below 10^8 no number is cut off, whatever the IPv4 address and port |
| TcpServer.HandshakeExact | net/TcpServer.cpp:84-126 | the exact condition over runs, for any number of loops: every run with at most m connections keeps the first clause for all of them (in the table, or one connectDestroyed pending or done) if and only if the m-th number is not cut off |
| TcpServer.CutOffNameStrands | net/TcpServer.cpp:84-126 | the run that fails it: the first connection whose number is cut off takes the table entry of an earlier one and closes; the earlier one is then up, and neither in the table nor has a connectDestroyed pending or done |
| TcpServer.ErasedByName | net/TcpServer.cpp:108-126 | what a further connection of the same name does: the stranded one's removal erases the newcomer's entry and queues its own connectDestroyed, and the newcomer is stranded |
| TcpServer.NothingToErase | net/TcpServer.cpp:108-126 | without an entry under its name the removal of a connection changes nothing |
| TcpServer.TcpServer.NewConnection | net/TcpServer.cpp:80-102 | the class takes the step of the transition system, at once on the base loop, queued on others |
| TcpServer.TcpServer.RemoveConnection | net/TcpServer.cpp:104-108 | the same for removeConnection |
| TcpServer.TcpServer.RemoveConnectionInLoop | net/TcpServer.cpp:110-126 | the same for removeConnectionInLoop: only the call that finds the entry queues connectDestroyed |
| TcpServer.TcpServer.RunOne | net/EventLoop.cpp:402-406 | the same for one queued functor |
| PollPoller.RemoveKeepsBijection | net/PollPoller.cpp:148-160 | after a swap-remove, repairing the one moved index makes index and slots a bijection again, and no other index changes |
| PollPoller.AddKeepsBijection | net/PollPoller.cpp:76-92 | appending a slot keeps the bijection |
| PollPoller.SwapRemoveMultiset | net/PollPoller.cpp:144-160 | every other slot survives, as often as before |
| PollPoller.PollPoller.UpdateChannel | net/PollPoller.cpp:72-118 | adds, changes or refuses, with exactly the new array of slots, map and index; Valid() keeps the bijection between map, slots and indexes inside aliased channels |
| PollPoller.PollPoller.RemoveChannel | net/PollPoller.cpp:120-161 | a registered channel without events leaves by swap-remove with the moved channel's index repaired; every other call changes nothing |
| PollPoller.PollPoller.FillActiveChannels | net/PollPoller.cpp:48-70 | every slot poll reported is delivered, in order, to its own channel, and the early exit loses none |
| PollPoller.Drive | net/PollPoller.cpp:72-161 | over every sequence of calls on any channels, registered, stale or foreign, the index stays sound, and what poll is asked is what the updates and removals carried out say |
| PollPoller.AskedExactly | net/PollPoller.cpp:76-174 | from an empty poller on: poll is asked for exactly the registered descriptors, each with the events of its last update, and skips a descriptor if and only if it has been updated to no events since it was registered (a channel enabled again stays skipped) |
| EpollPoller.EPollPoller.UpdateChannel | net/EpollPoller.cpp:96-158 | map, kernel set and three-valued index move together; fails exactly for a new channel on a taken descriptor; no epoll_ctl is illegal |
| EpollPoller.EPollPoller.RemoveChannel | net/EpollPoller.cpp:160-181 | leaves map and kernel set and becomes new, or nothing changes |
| EpollPoller.EPollPoller.Update | net/EpollPoller.cpp:183-205 | the kernel's rule for ADD, MOD and DEL |
| EpollPoller.EPollPoller.ChangeEvents | net/Channel.cpp:27-63 | a change of interest followed by the update keeps the agreement |
| EpollPoller.EPollPoller.FillActiveChannels | net/EpollPoller.cpp:82-94 | every event reported is passed on; the early return is unreachable |
| EpollPoller.EPollPoller.Poll | net/EpollPoller.cpp:49-80 | all events in order, and a full list is doubled |
| EpollPoller.Drive | net/EpollPoller.cpp:82-205 | the agreement holds over every sequence of calls, for channels known before and for new ones as they come into being |
| EpollPoller.DriveFresh | net/EpollPoller.cpp:82-205 | from the construction of the poller on, the agreement holds over every sequence of calls, and no illegal epoll_ctl is issued |
| TimerQueue.TimerSafety | net/TimerQueue.cpp:124-149 | over every run: firing j is no earlier than when + j * interval, a count r >= 1 bounds the firings, and a timer that used it up is out of the set |
| TimerQueue.ConstReferenceForgetsCount | net/TimerQueue.cpp:100-105 | a timer handed over by const reference, or with a count that is not positive, fires at every pass it is due at, however many there are: the firings are exactly the times of the passes |
| TimerQueue.CountBounds | net/TimerQueue.cpp:100-112 | the exact condition: some bound holds for the firings of an added timer in every run if and only if its repeat count is positive and it is not handed over by const reference |
| TimerQueue.RunKeepsSet | net/TimerQueue.cpp:283-305 | in every run the set is in order, and its keys are the times the timers were built for |
| TimerQueue.BlockerHasFired | net/TimerQueue.cpp:130-149 | in every reachable state only a timer that has fired can be not due in front of one that is due |
| TimerQueue.PassServesPrefix | net/TimerQueue.cpp:130-149 | one pass fires the due prefix of the set, each timer once: these stay, are erased, or lie behind the prefix untouched, and nothing else |
| TimerQueue.AllDueServed | net/TimerQueue.cpp:130-149 | in every reachable state a pass fires exactly the timers it reaches, and it reaches every due one if and only if no timer that has fired before and is not due stands in front of one that is |
| TimerQueue.FreshKeysServeAll | net/TimerQueue.cpp:124-149 | in every reachable state in which no timer of the set has fired yet, a pass fires every due timer |
| TimerQueue.StaleKeyHoldsUp | net/TimerQueue.cpp:130-149 | witness: after a periodic timer has fired, its stale key holds up a due one behind it |
| TimerQueue.CanceledStays | net/TimerQueue.cpp:135-145 | until removed or uncancelled, a cancelled timer neither fires nor changes in any run; if its count is 0 a pass may erase it, unfired |
| TimerQueue.CancelExact | net/TimerQueue.cpp:198-210 | in every reachable state cancelling, on or off, sets the flag of the timer named and changes nothing else |
| TimerQueue.CanceledIsSilent | net/TimerQueue.cpp:198-210 | once cancelled, a timer does not fire in any run without its removal or uncancelling |
| TimerQueue.RemoveExact | net/TimerQueue.cpp:178-196 | in every reachable state removing takes out the timer named as it is and leaves the others alone |
| TimerQueue.RemovedIsGone | net/TimerQueue.cpp:178-196 | a removed timer never comes back nor fires, in any run |
| TimerQueue.Timer.RunCallback | net/Timer.cpp:26-44 | the class fires as the specification does |
| TimerQueue.TimerQueue.DoTimers | net/TimerQueue.cpp:124-149 | iterating over and erasing from the set comes to the specified pass, for the timers that stay and for the states of those that leave |
| TimerQueue.TimerQueue.InsertTimer | net/TimerQueue.cpp:283-305 | the timer goes to its place in the order of key and identity |
| TimerQueue.TimerQueue.RemoveTimer | net/TimerQueue.cpp:180-196 | only the timer named leaves, as in the step of the runs |
| TimerQueue.TimerQueue.CancelTimer | net/TimerQueue.cpp:198-210 | only the flag of the timer named changes, as in the step of the runs |
| ConfigText.WriteThenLoad | base/ConfigFileReader.cpp:42-106 | in whatever order pairs are written, loading gives the map back if and only if every key and value together have at most 125 chars, 126 for the last |
| ConfigText.LoadWriteLoad | base/ConfigFileReader.cpp:42-106 | load, write, load gives the same map under exactly that condition, for every file |
| ConfigText.TooFewEntries | base/ConfigFileReader.cpp:75-106 | a longer pair before the last always costs the file an entry |
| ConfigText.LoadedIsClean | base/ConfigFileReader.cpp:42-148 | everything loaded is trimmed, not empty, free of '#' and newline, and keys of '=' |
| ConfigText.TrimExact | base/ConfigFileReader.cpp:123-150 | trimming takes blanks off both ends and nothing else, and all of them: every string is blanks, its trimmed form, blanks; the form is empty if and only if the string is all blanks |
| ConfigText.ParseNone | base/ConfigFileReader.cpp:108-121 | a line gives no entry if and only if it has no '=' or one side of the first one is blank |
| ConfigText.ParsedForm | base/ConfigFileReader.cpp:108-121 | every line that gives an entry is that key and value with blanks around both and a '=' between |
| ConfigText.PaddedLine | base/ConfigFileReader.cpp:42-121 | a line of a clean key and value with any blanks around both and any comment behind loads as that entry, unless the key has one already |
| ConfigText.TabsAndReturns | base/ConfigFileReader.cpp:42-150 | tabs, spaces and a carriage return at the end of the line are blanks |
| ConfigText.FirstEntryStays | base/ConfigFileReader.cpp:108-121 | duplicates keep the first value |
| ConfigText.EntriesBound | base/ConfigFileReader.cpp:42-73 | each chunk of fgets gives one entry at most |
| ConfigFileReader.TrimSpace | base/ConfigFileReader.cpp:123-148 | trimming in place yields the index of the trimmed string, or none, and writes only inside the string |
| ConfigFileReader.CConfigFileReader.ParseLine | base/ConfigFileReader.cpp:108-121 | two zeros and two trims inside one array parse the line as the specification does, and an existing key stays |
| ConfigFileReader.CConfigFileReader.LoadFile | base/ConfigFileReader.cpp:42-73 | chunk by chunk through a 256-char array, the map loaded is the specified one |
| ConfigFileReader.CConfigFileReader.WriteFile | base/ConfigFileReader.cpp:75-106 | writes every pair of the map once, in ascending order of the keys, and reports 0 if and only if the file opens and takes all lines; what a failed call has written are the least keys |
| ConfigFileReader.CConfigFileReader.SetConfigValue | base/ConfigFileReader.cpp:25-41 | sets the entry, even when the file cannot be rewritten, and reports 0 if and only if it was; before a load nothing happens |
| ConfigFileReader.SetAndReload | base/ConfigFileReader.cpp:25-106 | a new reader of the rewritten file has the new value and all the others if and only if every pair fits its line |
| CStrings.CutAt | base/ConfigFileReader.cpp:56-61 | a zero written into a string leaves its first part and touches nothing else |
| HexDump.DumpReadsBack | base/AsyncLog.cpp:265-354 | the text logged for any buffer parses back to exactly its bytes |
| HexDump.TitleReadsBack | base/AsyncLog.cpp:276 | in front of any rows the title reads back to the address and the size |
| HexDump.RowLayout | base/AsyncLog.cpp:319-375 | the digits of every octet of a row stand in its column, with a space in front of every sixteenth |
| HexDump.OutputBinary | base/AsyncLog.cpp:265-305 | the chunks of 512 bytes put together are the dump of the whole buffer, rows numbered through |
| HexDump.FormLog | base/AsyncLog.cpp:319-354 | the guard never stops the loop early: the whole chunk is consumed, len stays the length of the text that strcat looks for, and nothing is written beyond 1544 chars |
| HexDump.PartialSize | base/AsyncLog.cpp:319-354 | two digits a byte, a space for sixteen and twelve chars for thirty-two bound the text |
| HexDump.RowsSplit | base/AsyncLog.cpp:273-303 | a dump may be cut after any number of whole rows |
| HexDump.RowNumberReadsBack | base/AsyncLog.cpp:311-317 | the padded number in front of a row parses back to the row's number modulo 2^32 |
| HexDump.PaddedShape | base/AsyncLog.cpp:311-317 | a row number has six to ten digits |
| ChatServer.OneLiveSession | chatserversrc/ChatSession.cpp:243-271 | over every interleaving of connects, disconnects and the three steps of logins in which no two logins of one user overlap: no two listed sessions ever hold the same user, and after an assignment the lookup returns the session that logged in |
| ChatServer.InterleavedExact | chatserversrc/ChatSession.cpp:243-271 | over every interleaving of any logins: no two listed sessions ever hold the same user if and only if every assignment is made while no other listed session holds the user |
| ChatServer.StepExact | chatserversrc/ChatSession.cpp:250-271 | one step keeps the property if and only if it is no such assignment |
| ChatServer.SeparateIsSafe | chatserversrc/ChatSession.cpp:250-271 | logins of one user that do not overlap make only safe assignments, whatever logins of other users do in between |
| ChatServer.OneByOneIsSeparate | chatserversrc/ChatSession.cpp:232-283 | logins that are each finished before anything else happens never overlap |
| ChatServer.LoginAtOnce | chatserversrc/ChatSession.cpp:243-271 | the three steps in a row are the lookup, the kick and the assignment in one |
| ChatServer.LogInKeeps | chatserversrc/ChatSession.cpp:243-271 | a login touches only the caller and the one session that had the user |
| ChatServer.LookupOfNobody | chatserversrc/ChatServer.cpp:124-140 | for user 0, an unknown name, the lookup returns the caller only if every session before it has a user |
| ChatServer.InterleavedLoginsCollide | chatserversrc/ChatSession.cpp:250-271 | witness, as a run from the empty server: two logins that both look up before either assigns leave two sessions with one user |
| ChatServer.ChatServer.OnConnected | chatserversrc/ChatServer.cpp:45-62 | a new session at the end of the list |
| ChatServer.Roster | chatserversrc/ChatServer.cpp:45-116 | over every interleaving of connections and logins the list has exactly one session for each time that a connection has come up since it last went down |
| ChatServer.ChatServer.OnDisconnected | chatserversrc/ChatServer.cpp:64-116 | erasing while iterating removes exactly the sessions of the connection |
| ChatServer.ChatServer.GetSessionByUserId | chatserversrc/ChatServer.cpp:124-140 | the first session of the user, or none |
| ChatServer.ChatServer.OnLogin | chatserversrc/ChatSession.cpp:243-283 | the class takes the three steps of a login with the right password and none of one with a wrong password, and the session counts as logged in whatever the password |
| ChatServer.ChatServer.LookUpUser | chatserversrc/ChatSession.cpp:253-254 | the lookup as a step of its own |
| ChatServer.ChatServer.KickTarget | chatserversrc/ChatSession.cpp:255-260 | the kick as a step of its own, also of a session that has left the list |
| ChatServer.ChatServer.AssignUser | chatserversrc/ChatSession.cpp:268-270 | the assignment as a step of its own |

## Left out

- Sockets, epoll, eventfd, files, clocks and threads themselves: only their possible results appear, as parameters of steps, and the kernel's interest set, as a field.
- ChatSession.PackMessage: packages of more than 2^31 - 1 octets do not fit the `int32_t` sizes of the interface.
- Framing.FrameRoundTrip: both ends are taken to be little-endian hosts; the code copies the header in host order.
- ProtocolStream.BinaryStreamReader.ReadLengthWithoutOffset: what happens when five octets in a row announce a further one is undefined in C++ and only named `Undefined`; the input is taken to be a `c_str()`, with a zero behind it.
- Varint.Read7BitEncoded: a field that does not end within its five or ten octets, for the same reason.
- ProtocolStream.LengthRoundTrip: says that the reader leaves its five octets from 2^35 on, not what lies behind them.
- ByteBuffer.ByteBuffer.Append: does not model an append of the buffer to itself, `size_t` wrap-around or a failed allocation.
- ByteBuffer searches (`findCRLF`, `findEOL`, `findString`): simple scans that no modelled code uses.
- ChatSession.ChatSession.Handle: what the JSON parser, the user table and the stored messages answer is a parameter by the number of the message: whether it throws, and the text of the reply; how texts are parsed is not modelled. What a login or a chat message sends to other sessions appears as steps of their connections. `++m_seq` wraps around, which signed C++ arithmetic leaves undefined.
- ChatSession.ChatSession.OnRead: is one thread by itself; steps of other threads on the connection in between are in the transition system of Connection.
- ReadInt64, WriteInt64, WriteDouble and the isNULL variants: decimal text through a buffer that is not terminated.
- The overloads of `TcpConnection::send` for a pointer and for a buffer: they differ in how the message is copied.
- Connection.TcpConnection.SendNow: of the calls of the user's callbacks only their number and order appear; `TcpConnection::handleRead` is in EndToEnd.OnReadable.
- TcpServer.TeardownHandshake: does not model `stop()` and the destructor, which destroy connections without the handshake, nor the overflow of the connection counter.
- PollPoller.PollPoller.UpdateChannel: follows the code in never restoring the descriptor of a slot that was disabled; only the decoded descriptor is invariant.
- EpollPoller.EPollPoller.Update: fails only by the rules of epoll_ctl for its set; descriptors closed while registered and shortage of memory are not modelled.
- TimerQueue.TimerQueue.DoTimers: callbacks that touch the queue, and the deletion of timers; address order is modelled by creation order, and times are unbounded.
- TimerQueue.TimerQueue.RemoveTimer: which timers are released is not modelled.
- ConfigFileReader.CConfigFileReader.LoadFile: files with zero octets, files that cannot be opened (where the code leaves its load flag unset), and read errors.
- HexDump.OutputBinary: row numbers beyond 2^31, where the code's counter overflows, and addresses with the top bit set.
- ChatServer.OneLiveSession: lookups under the lock and plain reads and writes of a user id are taken as atomic steps.
- `Connector`, `TcpClient`, `SelectPoller`, the Windows branches, `EventLoopThreadPool`, logging levels, `Singleton`, the MySQL and redis wrappers and `MsgCacheManager`: wrappers, unused on Linux, or only easy members.
