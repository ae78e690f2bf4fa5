# Verified model of libnode

libnode is a C++ port of the Node.js runtime. Its input and output live in libuv, http-parser and OpenSSL; the
state it keeps around them is a set of event-driven machines. This project models these machines in Dafny and
proves what they guarantee over every order of events, and where the code falls short of its intent it states
exactly when.

| module | component |
|---|---|
| `HttpFraming`, `HttpFields`, `HttpOutgoing` | HTTP responses: framing, the table of fields and the outgoing message |
| `HttpReplay`, `HttpConnection` | the pipeline of one connection: what the calls come to, and what it does |
| `ServerSocket` | the pipeline's socket as an open net socket |
| `IncomingMessage` | flow control of request bodies |
| `Agent` | the socket allocator of the HTTP client |
| `NetSocket` | the life of a socket |
| `MessageQueue`, `Async` | the cross-thread queue and the thread-pool bridge |
| `FileSystem`, `Realpath` | the realpath walk over a static file system |
| `Path` | path algebra |
| `Emitter` | the event emitter |
| `QueryString`, `PercentCodec` | query strings and percent escapes |
| `JsonRpc` | binding of JSON-RPC arguments |
| `MessagePool` | the pool of HTTP messages |
| `Text`, `Wrappers` | string searching and the optional value |

Objects that the program updates in place are classes here: each method's contract ties the new state to the old
one, mostly through functions on values, and the properties are proved of those functions. Ghost fields hold what
the outside has seen: bytes on a wire, events emitted, buffers a handle took. What libuv decides (a refused write,
the order of completions, a lost socket) is a parameter or a field that the environment chooses. What listeners do
is a parameter too.

`dafny verify dfyconfig.toml` checks everything.

## Where the code differs from its intent

- `buffer` merges a string into the last entry and pushes it as well, so a response that waits for the socket may go
  out with bytes twice. It is kept if and only if no string is queued behind an entry of the same encoding, and none
  without an encoding behind a string (`HttpOutgoing.OutgoingMessage.WaitingIsKept`). A response in chunks that is ended
  while it waits is kept only if its end is all of it; ended with a string, it goes out with two endings
  (`HttpOutgoing.OutgoingMessage.EndedWhileWaiting`, `HttpOutgoing.EndedTwice`), and nothing behind it can be read.
  `HttpConnection.Serve` has the exact condition for a whole connection, computed from the calls alone
  (`HttpReplay.Fits`).
- A response without a body is ended with a last chunk when its caller has set `Transfer-Encoding: chunked`, and a
  transfer coding spelled differently is announced but not applied (`HttpFraming.ReadBackIff`).
- The percent encoder charges five units of its budget for three bytes; it may cut the encoding, and sometimes the
  budget wraps around and saves it (`PercentCodec.EncodedPrefix`, `PercentCodec.TruncatedExample`).
- `initSocketHandle` clears ALLOW_HALF_OPEN (`NetSocket.Socket.constructor`), and `destroy` sets DESTROYED only after
  the error callback, so a callback that destroys again schedules a second close (`NetSocket.Socket.Destroy`).
- A connect queue of empty buffers is never flushed (`NetSocket.Socket.Unflushed`).
- A once-listener removes the first listener with its function, not itself (`Emitter.EmitLeavesPersistent`).
- In the realpath walk the readlink callback has two arguments, so the cache entry of a fresh link goes under the key
  of a null string (`Realpath.RealpathContext.AfterReadlink`), and a path found in the caller's cache is returned as
  it stands (`Realpath.Realpath`).
- The realpath walk need not end with a cache that is right: when /l is a link to /a and the cache holds /l for /a, it
  goes back and forth between the two (`Realpath.LoopsForEver`). It ends if and only if the walk that follows the
  cache of the caller ends (`Realpath.Realpath`, `Realpath.RealpathFor`), and so if every entry leads to its file over
  fewer links than its key (`Realpath.LightEnds`).
- It takes a cache entry that is its own key for a path without links; where it holds one, relative targets behind it
  lead elsewhere (`Realpath.OwnKeyLink`).
- A message whose thread has seen `open_` and offers it only after the drain of `close` stays in the queue; this can
  happen if and only if a thread stands between the check and the offer when the queue is closed
  (`MessageQueue.CloseDelivers`, `MessageQueue.Stranded`).
- `removeSocket` does not look whether the socket is still listed: one removed twice while requests wait is replaced
  twice, and the bound is broken; that is the only way to break it (`Agent.BoundedIff`).
- `join` is a left fold except for two families of arguments (`Path.JoinLeftFold`).

## Model

| member | source | states |
|---|---|---|
| `HttpFraming.ReadBack` | include/libnode/detail/http/outgoing_message.h:60-80 | A delimited response (head, chunked or exact body, ending) is read back whole by a reader of RFC 7230, sections 3.3.3 and 4.1, and reading stops exactly at its end, whatever bytes follow. |
| `HttpFraming.ReadBackIff` | include/libnode/detail/http/outgoing_message.h:564-594 | Any response, however it was framed, is read back if and only if it is delimited; the failing families are a response without a body that is ended with a last chunk, a Content-Length that is not the length of the body, a transfer coding announced in another spelling than the one the sender compares with, and a length that only the close of the connection tells. |
| `HttpFraming.ReadAllBack` | include/libnode/detail/http/outgoing_message.h:60-80 | The reader run over a whole connection recovers every response in order, for any number of responses. |
| `HttpFraming.ReadChunksBack` | include/libnode/detail/http/outgoing_message.h:60-80 | Chunks of non-empty writes, the last chunk and the trailer decode to the concatenated writes and the trailer fields; no write can look like the last chunk. |
| `HttpFraming.ReadFieldsBack` | include/libnode/detail/http/outgoing_message.h:490-500 | Each field of the head is read back once, in order, with its value. |
| `HttpFraming.FieldSyntax` | include/libnode/detail/http/outgoing_message.h:490-500 | The reader takes any blanks around a value and none of them into it, and no line without a name or a colon. |
| `HttpFraming.ReadHead` | include/libnode/detail/http/outgoing_message.h:243-248 | The status line and the fields are read back and reading stands at the first byte of the body. |
| `HttpFraming.NumberDigits` | include/libnode/detail/http/outgoing_message.h:356-360 | The printed chunk size reads back as the size, and holds no separator. |
| `HttpFraming.DigitsPlain` | include/libnode/detail/http/outgoing_message.h:356-360 | The size is printed in small hexadecimal digits without a zero in front, the status code in decimal ones. |
| `HttpFraming.KeyNames` | include/libnode/detail/http/outgoing_message.h:503-523 | The five known field names, as the program spells them, are told apart whatever their case, and every other name is none of them. |
| `HttpFraming.LowerCharIs` | include/libnode/detail/http/header_scanner.re:26-38 | Lower case: the 26 capital letters become the small ones, and nothing else changes. |
| `HttpFields.OverlayIs` | include/libnode/detail/http/outgoing_message.h:219-231 | The entries given to writeHead put over the fields set before: every name of the latter keeps its place, with the value given last to writeHead if it is given one there and its own otherwise; the other names follow, each once with its last value, in the order in which they come up first. |
| `HttpFields.PutAll` | include/libnode/detail/http/outgoing_message.h:224-230 | The loop of writeHead over the entries does that. |
| `HttpFields.MergedIs` | include/libnode/detail/http/outgoing_message.h:219-237 | The fields of a head are those given if none were set before, and otherwise the overlay; with none given they are those set before. |
| `HttpFields.PutByKeyIs` | include/libnode/detail/http/outgoing_message.h:171-173 | setHeader replaces a field whose name differs in case only where it stands, and otherwise adds one at the end. |
| `HttpFields.PutKeepsKeys` | include/libnode/detail/http/outgoing_message.h:171-173 | The table has one field for each name, whatever its case: the one that was set last. |
| `HttpFields.OverlaidOnce` | include/libnode/detail/http/outgoing_message.h:219-231 | Without repeated names below and above, the overlay has every name of either exactly once, with the upper value if there is one. |
| `HttpOutgoing.BufferedAdds` | include/libnode/detail/http/outgoing_message.h:472-487 | What a buffered item adds to the output: its bytes once, or twice when it is a string that is merged; the queue is faithful if and only if nothing is merged. |
| `HttpOutgoing.PlanValues` | include/libnode/detail/http/outgoing_message.h:557-594 | The fields that storeHeader adds leave Content-Length as the caller gave it and add a Transfer-Encoding exactly when neither length field is given, there is a body and chunking is the default. |
| `HttpOutgoing.PlanIsDelimited` | include/libnode/detail/http/outgoing_message.h:557-594 | The reader finds chunks exactly when the sender chunks, no body exactly when the sender may not write one, and on a connection that is kept alive never a length that needs the close. |
| `HttpOutgoing.NothingReadAfterwards` | include/libnode/detail/http/outgoing_message.h:126-132 | Behind a second ending no reader finds another response. |
| `HttpOutgoing.OutgoingMessage.EndedWhileWaiting` | include/libnode/detail/http/outgoing_message.h:97-136 | A response in chunks that ends while it waits for the socket is kept if and only if its end is all of it; otherwise its last chunk is merged, and if nothing else is, it ends twice. |
| `HttpOutgoing.EndedTwice` | include/libnode/detail/http/outgoing_message.h:83-143 | Whatever string a waiting response in chunks is ended with: after end its queue holds its frame and the last chunk once more. |
| `HttpOutgoing.OutgoingMessage.PlainEnd` | include/libnode/detail/http/outgoing_message.h:97-136 | A response that is not sent in chunks is never spoiled by its end, only by the write before. |
| `HttpOutgoing.OutgoingMessage.PlainWrite` | include/libnode/detail/http/outgoing_message.h:472-487 | A write to a waiting response that is not sent in chunks keeps it if and only if it does not join the last entry: a string behind an entry of the same encoding, or without an encoding behind a string. |
| `HttpOutgoing.OutgoingMessage.WaitingIsKept` | include/libnode/detail/http/outgoing_message.h:452-488 | A response that has never had the socket is kept if and only if no entry of its queue joins the one before it; once it has ended, if and only if its queue holds exactly its frame. |
| `HttpOutgoing.GainedTwice` | include/libnode/detail/http/outgoing_message.h:424-450 | What goes out and what is queued adds up over two operations, and together they keep a waiting message if and only if each does where it stands. |
| `HttpOutgoing.FlowsConcat` | include/libnode/detail/http/outgoing_message.h:472-487 | Two lists of entries can be queued one after the other without a merge if and only if each can where it stands. |
| `HttpOutgoing.OutgoingMessage.Store` | include/libnode/detail/http/outgoing_message.h:490-523 | One field line is appended and exactly the flags of that field are set. |
| `HttpOutgoing.OutgoingMessage.StoreAll` | include/libnode/detail/http/outgoing_message.h:529-555 | After the loop the header holds the field lines in order and the flags say which of the known fields, and which of their values, occurred. |
| `HttpOutgoing.OutgoingMessage.StoreDate` | include/libnode/detail/http/outgoing_message.h:557-561 | The date is added exactly when it is wanted and not given. |
| `HttpOutgoing.OutgoingMessage.StoreConnection` | include/libnode/detail/http/outgoing_message.h:563-578 | Unless the caller gave a Connection field, one is added: keep-alive exactly when the request wants it and the length can be told, close with the flag LAST otherwise. |
| `HttpOutgoing.OutgoingMessage.StoreCoding` | include/libnode/detail/http/outgoing_message.h:580-594 | Without a length field a body is sent in chunks, or with LAST when chunking is not the default; a response without a body is not chunked. |
| `HttpOutgoing.OutgoingMessage.StoreFields` | include/libnode/detail/http/outgoing_message.h:525-596 | The header and the flags CHUNKED_ENCODING and LAST that a list of fields leads to. |
| `HttpOutgoing.OutgoingMessage.CompleteHeader` | include/libnode/detail/http/outgoing_message.h:596-599 | The header is complete, kept in both places, and not yet sent. |
| `HttpOutgoing.OutgoingMessage.MergeFields` | include/libnode/detail/http/outgoing_message.h:219-237 | The fields set before and those given, name by name: the values given last win, names set before keep their places, new ones follow in order. |
| `HttpOutgoing.OutgoingMessage.PrepareHead` | include/libnode/detail/http/outgoing_message.h:215-259 | The head is stored, with the code and the reason; its fields are those set before with every field that is given put over them, name by name, and nothing is sent yet. |
| `HttpOutgoing.OutgoingMessage.SendHeader` | include/libnode/detail/http/outgoing_message.h:601-601 | Under an Expect field the header goes out alone, and the message keeps its shape. |
| `HttpOutgoing.OutgoingMessage.WriteHead` | include/libnode/detail/http/outgoing_message.h:215-260 | The head of the message: status line; every field set before or given, where a name has the value given last; the fields added; no body for 204, 304 and 1xx; sent at once only under an Expect field. |
| `HttpOutgoing.OutgoingMessage.SetHeader` | include/libnode/detail/http/outgoing_message.h:167-175 | Only before the head is made: the field replaces the one whose name differs at most in case, in its place, or stands last if there is none; no other field changes. |
| `HttpOutgoing.OutgoingMessage.AddTrailers` | include/libnode/detail/http/outgoing_message.h:187-206 | The trailer is the lines of the given fields. |
| `HttpOutgoing.OutgoingMessage.Buffer` | include/libnode/detail/http/outgoing_message.h:452-488 | The output queue after buffering: the item stands last, and if it is a string and the entry before it has the same encoding, or is a string where it has none, it is joined to that entry as well; without a join the bytes sent and queued stay the bytes of the message, with one they are more. |
| `HttpOutgoing.OutgoingMessage.Drain` | include/libnode/detail/http/outgoing_message.h:433-443 | The drain loop: the queue goes to the wire in order and whole, unless the socket refuses a write. |
| `HttpOutgoing.OutgoingMessage.WriteOwning` | include/libnode/detail/http/outgoing_message.h:433-445 | What was queued goes out before the item, and the item is queued if the socket refuses something before it. |
| `HttpOutgoing.OutgoingMessage.WriteRaw` | include/libnode/detail/http/outgoing_message.h:424-450 | Only the owner of a writable socket reaches the wire, behind everything queued; anything else is queued, and keeps the message if and only if it does not join the last entry; an empty item changes nothing. |
| `HttpOutgoing.OutgoingMessage.Send` | include/libnode/detail/http/outgoing_message.h:407-422 | The header goes out once, before the first bytes: in front of a string, or as an entry of its own before a buffer. |
| `HttpOutgoing.OutgoingMessage.SendBody` | include/libnode/detail/http/outgoing_message.h:60-80 | The framed bytes follow what was made so far, with the header first if it had not gone out; a string in one piece, a buffer in three; while the message waits, the entries this queues, and that it is kept if and only if none of them is merged. |
| `HttpOutgoing.OutgoingMessage.SendInThree` | include/libnode/detail/http/outgoing_message.h:69-76 | The three pieces of a chunk that is a buffer. |
| `HttpOutgoing.OutgoingMessage.SendBehindHeader` | include/libnode/detail/http/outgoing_message.h:416-420 | The header is put before a first buffer, which is never merged with it. |
| `HttpOutgoing.OutgoingMessage.TakeBody` | include/libnode/detail/http/outgoing_message.h:60-80 | The item becomes the last write of the body, or, after the end, marks the message as overrun; while it waits, the entries this queues and whether it is kept. |
| `HttpOutgoing.OutgoingMessage.ImplicitHeader` | include/libnode/detail/http/outgoing_message.h:646-658 | A missing head is made from the default status and exactly the fields set before; an existing one is left alone. |
| `HttpOutgoing.OutgoingMessage.Write` | include/libnode/detail/http/outgoing_message.h:39-81 | A non-empty write becomes the next part of the body, framed; an empty one or one without a body changes neither body nor wire; the head is made if there is none; a waiting message queues the entries of the head and the write, and is kept if and only if none of them joins the one before it. |
| `HttpOutgoing.OutgoingMessage.WriteOn` | include/libnode/detail/http/outgoing_message.h:46-80 | The same behind the head. |
| `HttpOutgoing.OutgoingMessage.EndHot` | include/libnode/detail/http/outgoing_message.h:98-119 | The fast path puts head, framed data, last chunk and trailer on the wire in one write and leaves the same message as the slow path. |
| `HttpOutgoing.OutgoingMessage.EndSlow` | include/libnode/detail/http/outgoing_message.h:120-136 | The slow path: the data as a last write, then the ending; a waiting message queues the entries of both, and is kept if and only if none is merged. |
| `HttpOutgoing.OutgoingMessage.SendEnding` | include/libnode/detail/http/outgoing_message.h:124-136 | The last chunk and the trailer, or an empty write, complete the message; behind anything that waits, the last chunk is there twice. |
| `HttpOutgoing.OutgoingMessage.SendLastChunk` | include/libnode/detail/http/outgoing_message.h:126-131 | The last chunk as one string without an encoding. |
| `HttpOutgoing.OutgoingMessage.AppendAll` | include/libnode/detail/http/outgoing_message.h:108-117 | The buffer of the fast path holds header, framed data and ending. |
| `HttpOutgoing.OutgoingMessage.EndBody` | include/libnode/detail/http/outgoing_message.h:97-136 | The choice between the two paths: either leaves the same finished message, with the data as its last write, all of it sent while the socket can be written to; for a waiting message, which entries are queued and whether it is kept. |
| `HttpOutgoing.OutgoingMessage.Conclude` | include/libnode/detail/http/outgoing_message.h:124-136 | The ending finishes the message, and ends it twice behind output that waits. |
| `HttpOutgoing.OutgoingMessage.EndFirst` | include/libnode/detail/http/outgoing_message.h:83-136 | The end of a message that had not ended, with a head of its own if there was none. |
| `HttpOutgoing.OutgoingMessage.End` | include/libnode/detail/http/outgoing_message.h:83-143 | Fast path or slow path, one contract: the message is the head, the writes with the data as the last one, and the ending, all of it sent while the socket can be written to; a waiting message is kept if and only if no entry of its end is merged, and otherwise may hold its ending twice; finish is emitted exactly when nothing is left in the queue; a second end changes nothing. |
| `HttpOutgoing.OutgoingMessage.AllSent` | include/libnode/detail/http/outgoing_message.h:83-143 | A finished message with an empty queue that lost no write is on the wire exactly as its frame if and only if nothing was merged and nothing written after its end; one that lost a write is there with a beginning. |
| `HttpOutgoing.OutgoingMessage.SentSoFar` | include/libnode/detail/http/outgoing_message.h:424-450 | What has gone out of a kept message is a beginning of what it is so far, whatever became of the socket. |
| `HttpOutgoing.OutgoingMessage.AllSentSoFar` | include/libnode/detail/http/outgoing_message.h:424-450 | All that a kept owner of a writable socket is so far has gone out. |
| `HttpOutgoing.OutgoingMessage.HeadPlanned` | include/libnode/detail/http/outgoing_message.h:525-599 | The flags of a message whose head was made are those of the plan of its fields. |
| `HttpOutgoing.OutgoingMessage.KeptAliveIsDelimited` | include/libnode/detail/http/outgoing_message.h:564-594 | A response without LAST is delimited if and only if a body not sent in chunks has the announced length and a response without a body is not sent in chunks. |
| `HttpOutgoing.OutgoingMessage.Flush` | include/libnode/detail/http/outgoing_message.h:627-644 | After flush nothing is held back from a writable socket; finish is emitted exactly for a finished message with an empty queue, drain after a successful write otherwise. |
| `HttpOutgoing.OutgoingMessage.AssignSocket` | include/libnode/detail/http/outgoing_message.h:330-337 | The message becomes the owner and its queue goes to the wire. |
| `HttpOutgoing.OutgoingMessage.DetachSocket` | include/libnode/detail/http/outgoing_message.h:339-344 | A finished message lets go of the socket. |
| `HttpOutgoing.Socket.Write` | include/libnode/detail/net/socket.h:272-303 | The wire of a socket: bytes are taken whole, or refused, and then the socket is not writable any more. |
| `ServerSocket.Write` | include/libnode/detail/net/socket.h:272-303 | Once a net socket is open, the pipeline's socket shows it exactly: its handle, whether it can be written to, and the bytes its handle took, through every write, taken or refused. |
| `ServerSocket.Accept` | include/libnode/detail/net/server.h:251-252 | It does so from the accepted socket on. |
| `HttpConnection.Connection.OnRequest` | include/libnode/detail/http/server.h:354-374 | A new response becomes the owner if there is none and waits behind the others otherwise; it is as the replay begins one, and the wire does not change. |
| `HttpConnection.Connection.Enqueue` | include/libnode/detail/http/server.h:370-371 | While another response has the socket, a new one waits at the end of the queue. |
| `HttpConnection.Connection.GiveSocket` | include/libnode/detail/http/server.h:372-374 | Without an owner a new response gets the socket, which stays as it is. |
| `HttpConnection.Connection.Apply` | include/libnode/detail/http/outgoing_message.h:39-143 | One operation on a message: what goes out, the entries queued, and what becomes of fields, head, body, trailer and end; it is kept if and only if it was and the operation fits. |
| `HttpConnection.Connection.Carry` | include/libnode/detail/http/outgoing_message.h:39-143 | The body grows by what is given and taken, the end ends it, a trailer replaces the one before, and a message that has ended does not change. |
| `HttpConnection.Told` | include/libnode/detail/http/outgoing_message.h:39-143 | What the calls come to tells of a message which operations are allowed, which entries each of them queues, and which head it makes. |
| `HttpConnection.TextMoves` | include/libnode/detail/http/outgoing_message.h:39-143 | What an operation makes of a message is what it makes of its text in the replay. |
| `HttpConnection.EndFits` | include/libnode/detail/http/outgoing_message.h:97-136 | A response that has sent nothing may be ended at any time if it is not sent in chunks or its end carries nothing; sent in chunks and ended with data, it must own the socket. |
| `HttpConnection.Connection.Work` | include/libnode/detail/http/server.h:299-374 | An operation on any response keeps the pipelining invariant, and one without the socket changes no byte of the wire. |
| `HttpConnection.Connection.Perform` | include/libnode/detail/http/server.h:299-374 | The same, and no other response changes its message, finished ones included: what is remembered of a finished response is what its user wrote. The response is kept if and only if it was and the operation fits: it owns the socket, or queues nothing that joins the entry before it. |
| `HttpConnection.Connection.Known` | include/libnode/detail/http/server.h:299-374 | While there is a handle the replay knows of each response that has not let go whether it owns the socket, which entries an operation queues, and whether it fits. |
| `HttpConnection.Connection.Trace` | include/libnode/detail/http/server.h:299-374 | An operation changes text, verdict and queue of its response as the replay does, and finishes it on the connection exactly if it does in the replay. |
| `HttpConnection.Connection.Operate` | include/libnode/detail/http/server.h:299-374 | The same through the hand-over that the operation may start: one message changes as the operation says, all others stay, those that finish are remembered with whether they were kept; after LAST the wire stays as it is. While there is a handle the connection is where the replay of the calls is, and when the socket fails it has handed on no further. |
| `HttpConnection.Connection.Release` | include/libnode/detail/http/server.h:299-311 | The first request leaves the queue and its response lets go of the socket; every other response still waits. |
| `HttpConnection.Connection.Close` | include/libnode/detail/http/server.h:313-314 | After LAST the wire stays as it is, whoever waits. |
| `HttpConnection.Connection.Assign` | include/libnode/detail/http/server.h:315-320 | The next response becomes the owner with its message unchanged, and reports finish exactly if it has ended and nothing is left of its queue. |
| `HttpConnection.Connection.Owner` | include/libnode/detail/http/server.h:299-333 | A response has the socket exactly if it is the first that has not finished, and after LAST the one that has it writes no more. |
| `HttpConnection.Connection.PassOn` | include/libnode/detail/http/server.h:315-320 | The next response in the queue, if there is one, gets the socket; no message changes. |
| `HttpConnection.Connection.OutgoingOnFinish` | include/libnode/detail/http/server.h:299-333 | The hand-over chain through responses that have finished already ends, keeps the invariant, and ends the connection after LAST; while there is a handle it goes exactly as far as in the replay. |
| `HttpConnection.Connection.WireReads` | include/libnode/detail/http/server.h:299-333 | If the finished responses were kept and are delimited, a reader of the wire recovers all of them in order, and what it has not read is what the owner has sent so far. |
| `HttpConnection.Connection.KeptAliveReads` | include/libnode/detail/http/server.h:299-333 | The same with conditions on the calls alone: each response that does not end the connection has a Content-Length of its body or is sent in chunks, and no chunks without a body. |
| `HttpConnection.DelimitsIff` | include/libnode/detail/http/outgoing_message.h:564-594 | The length fields of a response are right if and only if they delimit it, for any that the reader understands. |
| `HttpConnection.Connection.WireIs` | include/libnode/detail/http/server.h:299-333 | While there is a handle, a finished response is on the wire as its frame if and only if it was kept. |
| `HttpConnection.Connection.WirePrefix` | include/libnode/detail/http/server.h:299-333 | Whatever happens to the socket: if the finished responses and the owner were kept, the wire is a beginning of the frames in request order and what the owner has to send. |
| `HttpConnection.Connection.OnTheWire` | include/libnode/detail/http/server.h:299-374 | If everything that was done fitted, the wire is a beginning of what the calls promise, and all of it while there is a handle. |
| `HttpConnection.Connection.Accept` | include/libnode/detail/http/server.h:354-374 | A request adds a response to the connection as it does to the replay. |
| `HttpConnection.SentPrefix` | include/libnode/detail/http/server.h:299-333 | Behind the first refused write nothing goes out, so what was sent is a beginning. |
| `HttpConnection.Connection.Act` | include/libnode/detail/http/server.h:299-374 | One operation on any response is one step of the replay. |
| `HttpConnection.Connection.Happen` | include/libnode/detail/http/server.h:299-374 | One request, operation or failure: the connection stays in step with the replay, and the wire within what the calls promise. |
| `HttpConnection.SentFrames` | include/libnode/detail/http/server.h:299-333 | Responses that were kept and not lost are their frames, one after the other. |
| `HttpConnection.Serve` | include/libnode/detail/http/server.h:299-374 | A connection under any sequence of requests, operations in any order and failures, against the replay of the calls: it has one response for each request, with the text that the calls come to; while there is a handle, as many have finished as in the replay, each is on the wire as its frame if and only if every operation on it fitted, and with length fields set right a reader recovers them; if everything fitted, the wire is exactly what the calls promise, in request order, and a beginning of it when the socket has failed; a handle that refuses no write stays until it is lost. |
| `HttpReplay.StepLater` | include/libnode/detail/http/server.h:299-374 | Whatever is called next, nothing promised is taken back: what was to be on the wire is a beginning of what is to be on it now, no response is un-finished, and a response that was spoiled stays so. |
| `HttpReplay.ReplayedOk` | include/libnode/detail/http/server.h:299-374 | Over every run each request has its response, those that have let go of the socket have finished, and a finished one has a head that was sent. |
| `HttpReplay.HeadMade` | include/libnode/detail/http/outgoing_message.h:215-240 | The head that an operation makes: the given code, reason and fields over those set before, or the default status with exactly the fields set before. |
| `HttpReplay.PresetNext` | include/libnode/detail/http/outgoing_message.h:167-175 | Over a run the fields set before a head have one field for each name, the one set last; the head freezes them. |
| `HttpReplay.BegunGrows` | include/libnode/detail/http/outgoing_message.h:39-143 | What a response has to send only grows with its operations. |
| `HttpReplay.HandOnFar` | include/libnode/detail/http/server.h:299-320 | The socket is handed on behind the next response exactly if that has finished, and no text or verdict changes on the way. |
| `HttpReplay.HandOnRests` | include/libnode/detail/http/server.h:315-320 | It comes to rest at a response that has not finished, behind the last one, or after LAST. |
| `HttpReplay.LessPromised` | include/libnode/detail/http/server.h:299-320 | A connection that was handed on less far has less to send. |
| `IncomingMessage.IncomingMessage.OnBody` | include/libnode/detail/http/parser.h:302-310 | A chunk is delivered at once or queued behind what is queued; delivered followed by queued is received. |
| `IncomingMessage.IncomingMessage.OnMessageComplete` | include/libnode/detail/http/parser.h:312-337 | The end is delivered or queued after all data. |
| `IncomingMessage.IncomingMessage.DoResume` | include/libnode/detail/http/incoming_message.h:52-57 | Resuming schedules a tick exactly when something is pending. |
| `IncomingMessage.IncomingMessage.EmitPending` | include/libnode/detail/http/incoming_message.h:197-204 | A tick is scheduled exactly when something is pending. |
| `IncomingMessage.IncomingMessage.Emit` | include/libnode/detail/http/incoming_message.h:206-215 | The event is delivered, its listeners act in order, the message is paused as the last of their acts says, and each resuming schedules a tick if something is pending. |
| `IncomingMessage.IncomingMessage.EmitEnd` | include/libnode/detail/http/incoming_message.h:217-228 | The end is emitted once. |
| `IncomingMessage.IncomingMessage.RunTick` | include/libnode/detail/http/incoming_message.h:261-277 | A tick delivers what is pending, oldest first, up to and including the first entry whose listeners leave the message paused, and nothing if it is paused already; it uses up one scheduled tick, and listeners that resume on the way schedule others. |
| `IncomingMessage.IncomingMessage.TakeNext` | include/libnode/detail/http/incoming_message.h:264-275 | One turn of its loop: exactly the oldest entry is delivered. |
| `IncomingMessage.IncomingMessage.Happen` | include/libnode/detail/http/incoming_message.h:197-277 | Every single event keeps order and schedule, only a chunk before the end adds to the data received, and only an event that can happen changes anything; a scheduled tick leaves the message paused or drained. |
| `IncomingMessage.IncomingMessage.Run` | include/libnode/detail/http/incoming_message.h:197-277 | For any sequence of chunks, completion, pause, resume and ticks, with listeners that pause and resume: the data received are the chunks before the end, data delivered and then pending are the data received, and the end comes at most once and after all of it. |
| `IncomingMessage.NeverStalls` | include/libnode/detail/http/incoming_message.h:52-57 | Pending data while not paused implies a scheduled tick. |
| `Agent.RunOk` | include/libnode/detail/http/agent.h:48-84 | Over every run, second removals included: requests wait only when there are at least maxSockets sockets, and the requests handed over and then those waiting are the requests that arrived, in order. |
| `Agent.BoundedIff` | include/libnode/detail/http/agent.h:48-156 | There are never more than maxSockets sockets during a run if and only if, while requests wait, only sockets that are listed go away. |
| `Agent.WaitingIsServed` | include/libnode/detail/http/agent.h:163-198 | Over every run nothing handed over is taken back, requests are served in arrival order, and a waiting request has its socket after as many free or lost sockets as there are requests up to it. |
| `Agent.GivenOnce` | include/libnode/detail/http/agent.h:163-198 | Each request stands in one place only, handed to one socket or waiting. |
| `Agent.ListedIff` | include/libnode/detail/http/agent.h:48-156 | At the end of any run, second removals included, a socket is listed if and only if it was listed or created and has not gone away since. |
| `Agent.WithoutIs` | include/libnode/detail/http/agent.h:143-149 | Removing a socket takes its first occurrence out of the list and leaves the others in their order; one that is not there changes nothing. |
| `Agent.LostLeaves` | include/libnode/detail/http/agent.h:143-155 | What a socket that goes away leaves: the list without its first occurrence, and behind it the fresh socket that serves the first waiting request. |
| `Agent.NameIs` | include/libnode/detail/http/agent.h:55-62 | The key is host:port or host:port:localAddress, and tells destinations apart whose hosts and ports hold no colon. |
| `Agent.RequestedOk` | include/libnode/detail/http/agent.h:48-84 | A new request keeps the bound and the order. |
| `Agent.LostOk` | include/libnode/detail/http/agent.h:135-156 | A socket that goes away, listed or not, keeps the order; it keeps the bound if and only if it is listed or no request waits: one removed twice while requests wait is replaced twice. |
| `Agent.StepOk` | include/libnode/detail/http/agent.h:48-198 | Every event keeps the order, and keeps the bound if and only if it is not such a second removal. |
| `Agent.FreedOk` | include/libnode/detail/http/agent.h:181-193 | A free socket that takes the first waiting request keeps the order and the sockets. |
| `Agent.Agent.Shift` | include/libnode/detail/http/agent.h:181-193 | The first waiting request leaves the queue of its key and gets the socket; without one the socket is destroyed. |
| `Agent.StepServes` | include/libnode/detail/http/agent.h:135-156 | A free socket, or the fresh one in place of one that goes away, serves exactly the request that has waited longest; nothing else takes a request out of the queue. |
| `Agent.Agent.AddRequest` | include/libnode/detail/http/agent.h:48-84 | A request gets a fresh socket below the bound and waits at it; other keys are untouched. |
| `Agent.Agent.Add` | include/libnode/detail/http/agent.h:65-83 | The two branches of addRequest on one key. |
| `Agent.Agent.Arrive` | include/libnode/detail/http/agent.h:65-69 | The key has a list of sockets, and the request has arrived. |
| `Agent.Agent.Connect` | include/libnode/detail/http/agent.h:72-75 | A fresh socket for the request. |
| `Agent.Agent.Queue` | include/libnode/detail/http/agent.h:77-82 | The request waits behind the others of its key. |
| `Agent.Agent.OnFree` | include/libnode/detail/http/agent.h:163-198 | A free socket goes to the first waiting request, or is destroyed if none waits. |
| `Agent.Agent.RemoveSocket` | include/libnode/detail/http/agent.h:135-156 | The first occurrence of the socket leaves the list and the sockets beside it stay in order; exactly if requests wait a fresh one joins the list and serves the first of them; the order of requests is kept, and the bound if and only if the socket was listed or none waits. |
| `Agent.Agent.Unlist` | include/libnode/detail/http/agent.h:143-149 | The first occurrence of the socket leaves the list of its key and every other socket stays where it was in order. |
| `Agent.Agent.Replace` | include/libnode/detail/http/agent.h:151-155 | If requests wait, a fresh socket takes the first one. |
| `Agent.Agent.CreateSocket` | include/libnode/detail/http/agent.h:112-119 | A fresh socket joins the list of its key. |
| `NetSocket.Socket.constructor` | include/libnode/detail/net/socket.h:57-67 | A new socket has no flag, ALLOW_HALF_OPEN not even when it was asked for. |
| `NetSocket.Socket.Open` | include/libnode/detail/net/server.h:251-252 | An accepted socket is readable and writable. |
| `NetSocket.Socket.Write` | include/libnode/detail/net/socket.h:272-303 | A write is queued while connecting and handed to the handle otherwise; a refused write destroys the socket; what was asked for is what the handle took and then what is queued. |
| `NetSocket.Socket.Enqueue` | include/libnode/detail/net/socket.h:288-300 | A write while connecting stands last in the connect queue, with its callback. |
| `NetSocket.Socket.WriteBuffer` | include/libnode/detail/net/socket.h:585-603 | A buffer the handle takes is counted and owed a completion; a refused one destroys the socket. |
| `NetSocket.Socket.End` | include/libnode/detail/net/socket.h:110-139 | While connecting the shutdown is queued behind the data. A writable socket whose data is taken is shut down exactly once and goes on reading, or is destroyed if the handle refuses the shutdown; one that cannot be read is destroyed exactly if no write is outstanding, and otherwise with the last; refused data destroys the socket; a second end changes nothing. |
| `NetSocket.Socket.DestroySoon` | include/libnode/detail/net/socket.h:145-155 | Destruction happens at once exactly if no write is outstanding and waits for the last one otherwise. |
| `NetSocket.Socket.EndOpen` | include/libnode/detail/net/socket.h:119-138 | The data goes to the handle first, then the shutdown is issued or the socket destroyed, at once or with the last write; refused data destroys it. |
| `NetSocket.Socket.EndHandle` | include/libnode/detail/net/socket.h:127-138 | A readable socket is shut down, once, and stays readable with its handle; if the handle refuses, it is destroyed and false is returned; one that cannot be read is destroyed if no write is outstanding and otherwise marked for it. |
| `NetSocket.Socket.ConnectQueueCleanUp` | include/libnode/detail/net/socket.h:528-533 | The queue is gone, and with it the state of connecting. |
| `NetSocket.Socket.FireErrorCallbacks` | include/libnode/detail/net/socket.h:535-542 | An error is emitted once in the life of a socket. |
| `NetSocket.Socket.Destroy` | include/libnode/detail/net/socket.h:544-583 | A live socket loses its handle, queue and readable and writable flags and schedules close once, or twice if the error callback destroys it again; a dead one schedules no close. |
| `NetSocket.Socket.AfterWrite` | include/libnode/detail/net/socket.h:712-736 | The count of outstanding writes stays the completions owed, whatever drain listeners and callbacks call; the drain listeners run exactly with the last completion; a failed write destroys the socket with an error, and a socket to be destroyed soon is destroyed with the last completion, without one. |
| `NetSocket.Socket.AfterShutdown` | include/libnode/detail/net/socket.h:688-699 | The socket is destroyed, without an error, exactly if its other half has ended too. |
| `NetSocket.Socket.OnEof` | include/libnode/detail/net/socket.h:639-655 | At the end of the stream a socket that is not writable is destroyed, and one without ALLOW_HALF_OPEN is ended. |
| `NetSocket.Socket.GotEnd` | include/libnode/detail/net/socket.h:639-655 | The reactions to the end of the stream before its listeners run. |
| `NetSocket.Socket.OnReadError` | include/libnode/detail/net/socket.h:656-658 | A read error destroys the socket. |
| `NetSocket.Socket.OnData` | include/libnode/detail/net/socket.h:661-678 | The bytes read are counted. |
| `NetSocket.Socket.FlushQueue` | include/libnode/detail/net/socket.h:783-794 | The queue reaches the handle once, in call order, or the socket is destroyed. |
| `NetSocket.Socket.FlushOne` | include/libnode/detail/net/socket.h:788-792 | Each entry goes to the handle exactly once, or the refused write destroys the socket. |
| `NetSocket.Socket.Abandon` | include/libnode/detail/net/socket.h:761-765 | A failed connection drops the queue and destroys the socket with an error; nothing more reaches the handle. |
| `NetSocket.Socket.Connected` | include/libnode/detail/net/socket.h:767-794 | The bytes dispatched and queued together do not change, the queue is empty afterwards exactly if it held a byte, and everything asked for has then reached the handle. |
| `NetSocket.Socket.AfterConnect` | include/libnode/detail/net/socket.h:748-803 | A failed connection destroys the socket; otherwise the queue is flushed before the connect listeners run, a queued shutdown comes after everything asked for, and on a connection that is readable and writable it is issued, exactly once. |
| `NetSocket.Socket.EndQueued` | include/libnode/detail/net/socket.h:798-801 | The queued end, once the queue has been flushed, does what end does on an open socket. |
| `NetSocket.Socket.React` | include/libnode/detail/net/socket.h:110-155 | Whatever calls listeners make, every buffer they write is asked for, in order, and nothing that they do not pass. |
| `NetSocket.Socket.Happen` | include/libnode/detail/net/socket.h:704-810 | One call or event. |
| `NetSocket.Socket.Connect` | include/libnode/detail/net/socket.h:489-526 | A fresh socket connects, or is destroyed when the handle refuses. |
| `NetSocket.Socket.BytesWritten` | include/libnode/detail/net/socket.h:193-200 | The bytes dispatched and those in the connect queue, no queue counting as an empty one. |
| `NetSocket.Socket.Unflushed` | include/libnode/detail/net/socket.h:783-783 | The queue is left unflushed exactly if every buffer in it is empty. |
| `NetSocket.Live` | include/libnode/detail/net/socket.h:704-810 | For any sequence of calls and events: every buffer the user writes is asked for, in order, and nothing that nobody passed; while the socket lives, connected and without a queue, the handle has taken exactly what was asked for; a socket that the user has ended is, once connected, shut down, destroyed, or marked for it while a write is outstanding, unless the connection came up for reading only; outstanding writes are counted, close is scheduled exactly once for a socket no callback destroys again, and a destroyed socket has no handle and is neither readable nor writable. |
| `MessageQueue.InvKept` | include/libnode/detail/message_queue.h:41-74 | Every step of every thread keeps: a non-empty open queue has a signal, a poster about to send one, or a running drain; and the messages emitted followed by those queued are those offered. |
| `MessageQueue.NoLostWakeUp` | include/libnode/detail/message_queue.h:41-74 | The same over all interleavings; messages are emitted once each, in queue order, and never taken back. |
| `MessageQueue.WakesAreSent` | include/libnode/detail/message_queue.h:41-74 | Over all interleavings the loop wakes at most once for each signal sent, each drain comes from a wake-up or from close and is left once, and messages are offered and emitted one by each offer and poll. |
| `MessageQueue.SettlesDown` | include/libnode/detail/message_queue.h:64-74 | Without new calls the machine stops after a bounded number of steps. |
| `MessageQueue.WorkShrinks` | include/libnode/detail/message_queue.h:41-74 | Every internal step leaves less to do. |
| `MessageQueue.RestsDelivered` | include/libnode/detail/message_queue.h:64-74 | Where it stops with the queue open, everything offered has been emitted. |
| `MessageQueue.StrandedAfterClose` | include/libnode/detail/message_queue.h:41-62 | The least run that strands a message: offered when the drain of close is over. |
| `MessageQueue.LeftOver` | include/libnode/detail/message_queue.h:41-62 | After the drain of close nothing is emitted any more, and the messages in the queue and between the check and the offer stay the same in number over all internal runs. |
| `MessageQueue.Stranded` | include/libnode/detail/message_queue.h:41-62 | At rest exactly those are stranded: none if and only if, when the drain was over, the queue was empty and no thread stood between the check of open_ and the offer. |
| `MessageQueue.CloseDelivers` | include/libnode/detail/message_queue.h:41-62 | From close on every interleaving emits everything if and only if no thread stands between the check and the offer at that moment. |
| `MessageQueue.ClosedTakesNone` | include/libnode/detail/message_queue.h:56-61 | A closed queue takes no message: until it is opened again only the threads that saw it open add one, each at most one. |
| `MessageQueue.ToRest` | include/libnode/detail/message_queue.h:64-74 | Every state comes to rest. |
| `MessageQueue.EmitMessage` | include/libnode/detail/message_queue.h:69-74 | The polling loop, undisturbed, emits the queue oldest first and empties it. |
| `Async.InvKept` | include/libnode/detail/async.h:39-115 | Every step of exec, the pool threads, the main loop and close keeps the bookkeeping of ids, callbacks and results. |
| `Async.ExecedOk` | include/libnode/detail/async.h:49-58 | A new task gets an id that no task, message or callback has. |
| `Async.PolledOk` | include/libnode/detail/async.h:93-107 | A message taken from the queue fires its callback and takes it out of the table. |
| `Async.FiredOnce` | include/libnode/detail/async.h:93-107 | For every interleaving: the callbacks called are those of the emitted messages in queue order, each at most once, with the callback registered under the id and the result of that id's own task. |
| `Async.RegisteredWhileOutstanding` | include/libnode/detail/async.h:53-62 | Before close an id is in the callback table exactly while its task or message is under way; one that no longer is has fired. |
| `Async.RegisteredIs` | include/libnode/detail/async.h:49-62 | For every interleaving: exactly the callbacks passed to exec are registered, each under the number of its call, and calls are accepted until close. |
| `Async.WorkShrinks` | include/libnode/detail/async.h:39-115 | Every step that is no call of exec or close leaves less to do. |
| `Async.SettlesDown` | include/libnode/detail/async.h:39-115 | Without new calls the bridge stops after a bounded number of steps. |
| `Async.RestsCalled` | include/libnode/detail/async.h:39-115 | Where it stops before close, with at least one pool thread, every callback ever passed to exec has been called, and the table is empty. |
| `Async.FinishedIs` | include/libnode/detail/async.h:71-89 | A task that returns leaves its thread, and posts its id with its own result if the queue is open. |
| `FileSystem.LinkExpands` | include/libnode/detail/fs.h:1020-1033 | Replacing a link by its target, resolved lexically against the directory before it, leaves the meaning of the whole path and takes one link off its chain. |
| `FileSystem.ReducedMeansSame` | include/libnode/detail/fs.h:1022-1025 | A target with ".." only at the front, reduced on the stack of a prefix without links, leads where the directory tree leads. |
| `FileSystem.EndsOnce` | include/libnode/detail/fs.h:1078-1117 | The meaning of a path is a function: one end after one number of links. |
| `FileSystem.Compose` | include/libnode/detail/fs.h:996-1001 | Paths that are put together mean the one followed from where the other ends. |
| `FileSystem.Decompose` | include/libnode/detail/fs.h:996-1001 | Every path splits at every component, with its links shared out. |
| `Realpath.NextPart` | include/libnode/detail/fs.h:1147-1154 | On a resolved path the match of the regular expression is the next component with its separator. |
| `Realpath.MatchIs` | include/libnode/detail/fs.h:1125-1154 | On any string the match runs to the next separator or the end and takes in all the separators there; its part begins at the first place behind which no line terminator stands in between. |
| `Realpath.StepLink` | include/libnode/detail/fs.h:1020-1033 | A link keeps the meaning of the path, with one link less, and gives a cache entry that is right for its key. |
| `Realpath.StepCached` | include/libnode/detail/fs.h:1171-1176 | A cached value that leads to the same file as its key stands in for the path up to the component: the same end, over fewer links if the cache is light. |
| `Realpath.StepHard` | include/libnode/detail/fs.h:1086-1094 | A component that is no link extends the prefix without links. |
| `Realpath.ResolveTarget` | include/libnode/detail/fs.h:1022-1025 | The first call of resolve computes the target seen from the prefix. |
| `Realpath.ResolveRest` | include/libnode/detail/fs.h:996-998 | The second call appends the rest of the path. |
| `Realpath.RealpathContext.constructor` | include/libnode/detail/fs.h:1209-1223 | The walk starts with the meaning of the original path. |
| `Realpath.RealpathContext.Start` | include/libnode/detail/fs.h:974-983 | The walk stands behind the leading separator. |
| `Realpath.RealpathContext.Loop` | include/libnode/detail/fs.h:1126-1180 | One component is cut off and skipped, replaced from the cache, or asked for; at the end of the path the result is cached and returned. |
| `Realpath.RealpathContext.Arrive` | include/libnode/detail/fs.h:1141-1146 | At the end of the path the result is cached and returned. |
| `Realpath.RealpathContext.PassHard` | include/libnode/detail/fs.h:1165-1169 | A component known to be hard is skipped. |
| `Realpath.RealpathContext.PassCached` | include/libnode/detail/fs.h:1171-1176 | A cached value replaces the path up to the component. |
| `Realpath.RealpathContext.CutNext` | include/libnode/detail/fs.h:1147-1154 | The base is the path up to the next component, without and with its separator. |
| `Realpath.RealpathContext.GotStat` | include/libnode/detail/fs.h:1078-1117 | A missing entry fails the walk; what is no link is remembered and cached under itself; a link whose id was seen is replaced and cached under its own path; another link is followed by stat first. |
| `Realpath.RealpathContext.NotALink` | include/libnode/detail/fs.h:1086-1094 | What is no link is remembered and cached under itself, and the walk goes on behind it. |
| `Realpath.RealpathContext.AfterStat` | include/libnode/detail/fs.h:1061-1068 | A link that leads nowhere fails the walk. |
| `Realpath.RealpathContext.AfterReadlink` | include/libnode/detail/fs.h:1045-1051 | The target is remembered under the link's id; its cache entry goes under the key of a null string, because the callback gets no third argument. |
| `Realpath.RealpathContext.GotTarget` | include/libnode/detail/fs.h:1012-1035 | The link is replaced by its resolved target, with one link less to follow. |
| `Realpath.RealpathContext.GotResolvedLink` | include/libnode/detail/fs.h:995-1002 | The path becomes the resolved link and the rest, and the walk starts again. |
| `Realpath.RealpathContext.Turn` | include/libnode/detail/fs.h:1045-1180 | Every callback keeps the meaning of the path, with any cache whose entries lead to the same files as their keys, and brings the walk nearer to its end with a light one; what it does at a component is the branch of the code. |
| `Realpath.Realpath` | include/libnode/detail/fs.h:1190-1224 | For every path whose own chain of links ends and every cache whose entries lead to the same files as their keys: if the walk with that cache comes to an end, the call does, fails exactly if the path leads nowhere, and otherwise returns a path without links to the same place; the cache stays right; only a result taken straight from the cache of the caller may hold links. |
| `Realpath.RealpathFor` | include/libnode/detail/fs.h:1190-1224 | With any such cache, whenever the call has finished, the walk with the cache of the caller comes to an end, and the result is right in the same sense: together with the total version, the call ends if and only if that walk does. |
| `Realpath.TurnOn` | include/libnode/detail/fs.h:1045-1180 | Each turn goes on as the walk with the cache of the caller does: what the call itself has put into its cache, remembered as hard or read of a link makes no difference. |
| `Realpath.OnwardStanding` | include/libnode/detail/fs.h:1171-1176 | A cached value, the caller's or one that the call has added, is where the walk goes on. |
| `Realpath.LightWalks` | include/libnode/detail/fs.h:1126-1180 | With a light cache the walk comes to an end, with no more replacements than the path has links. |
| `Realpath.LightEnds` | include/libnode/detail/fs.h:1190-1224 | So does the call then. |
| `Realpath.LoopCache` | include/libnode/detail/fs.h:1171-1176 | A cache entry that leads to the same file as its key over one link more: right, but not light. |
| `Realpath.NeverEnds` | include/libnode/detail/fs.h:1171-1176 | The walk with it replaces one path by the other for ever. |
| `Realpath.LoopsForEver` | include/libnode/detail/fs.h:1171-1176 | With it realpath("/l") does not end after any number of turns. |
| `Realpath.LoopsOnce` | include/libnode/detail/fs.h:1190-1224 | Without the cache it ends, at /a. |
| `Realpath.OwnKeyLink` | include/libnode/detail/fs.h:1165-1169 | With "/a" as the entry of the link "/a" to /x/y, the target "../z" of /a/l is read from /a: the walk goes on with /z instead of /x/z. |
| `Path.Normalize` | src/path.cpp:97-157 | The scanning loop computes the printed stack reduction of the components. |
| `Path.AddDir` | src/path.cpp:120-130 | One piece: ".." removes the name before it or piles up, "." disappears. |
| `Path.PrintDirs` | src/path.cpp:142-156 | The printing loop. |
| `Path.NormalizeCanonical` | src/path.cpp:97-157 | The result has proper components only, ".." only as a leading run, and they are the reduction of the input's components. |
| `Path.NormalizePieces` | src/path.cpp:97-157 | The exact pieces between the separators of a normalized path: no empty one but for the root and a trailing separator, no "." but the lone one. |
| `Path.NormalizeIdempotent` | src/path.cpp:97-157 | normalize is idempotent. |
| `Path.PrintReadsBack` | src/path.cpp:142-156 | Splitting the printed path gives the components and both separators back. |
| `Path.TrimSeps` | src/path.cpp:78-95 | The backward scan cuts the trailing separators. |
| `Path.TrimMeaning` | src/path.cpp:78-95 | What trimming keeps: the longest prefix not ending in a separator, or the first character. |
| `Path.Resolve` | src/path.cpp:181-211 | The loop of resolve. |
| `Path.ResolveIsFold` | src/path.cpp:181-211 | resolve is the fold of "where a path leads from here" over its arguments, from the working directory, and its result is canonical. |
| `Path.ResolveLeftFold` | src/path.cpp:181-211 | resolve(xs + [y]) equals resolve([resolve(xs), y]). |
| `Path.ResolveFromLastAbsolute` | src/path.cpp:181-211 | Only the suffix from the last absolute path matters, not even the working directory. |
| `Path.JoinPaths` | src/path.cpp:159-179 | The loop of join. |
| `Path.JoinLeftFold` | src/path.cpp:159-179 | join(xs + [y]) equals join([join(xs), y]) if and only if xs is not the single empty string and not, before an absolute y, empty. |
| `Path.DirnameBasename` | src/path.cpp:218-255 | On a resolved path dirname and basename split off the last component and resolve puts them together again. |
| `Path.InDirectory` | src/path.cpp:218-255 | With a directory and a name, and any number of separators behind them: the directory, "/" if it is the root, and the name. |
| `Path.NameAlone` | src/path.cpp:218-255 | A name alone, with any number of separators behind it: its directory is ".". |
| `Path.RootAlone` | src/path.cpp:218-255 | Separators alone: the directory is "/" and the name is empty. |
| `Emitter.EventEmitter.AddListener` | include/libnode/detail/events/event_emitter.h:36-50 | The listener is appended to its event's list; the two arrays go on representing one map. |
| `Emitter.EventEmitter.RemoveListener` | include/libnode/detail/events/event_emitter.h:52-73 | The first listener with an equal function, once or not, is removed. |
| `Emitter.EventEmitter.RemoveAllListeners` | include/libnode/detail/events/event_emitter.h:75-78 | No event has listeners. |
| `Emitter.EventEmitter.RemoveAllListenersOf` | include/libnode/detail/events/event_emitter.h:80-89 | One event is taken out of both arrays. |
| `Emitter.EventEmitter.GetListeners` | include/libnode/detail/events/event_emitter.h:381-389 | The place of an event in the two arrays, or none. |
| `Emitter.EventEmitter.NewListeners` | include/libnode/detail/events/event_emitter.h:391-396 | A new event with no listeners. |
| `Emitter.EventEmitter.Invoke` | include/libnode/detail/events/event_emitter.h:363-367 | A called listener; a once-listener removes the first listener with its function. |
| `Emitter.EventEmitter.Emit` | include/libnode/detail/events/event_emitter.h:99-116 | One emit calls exactly the listeners present at entry, once each, in order, however many listeners the callbacks add and the once-listeners remove. |
| `Emitter.EventEmitter.EmitLoop` | include/libnode/detail/events/event_emitter.h:104-115 | The index loop over the list that the callbacks change: it calls the listeners present at entry in order; afterwards every event has the listeners it had, less the once-listeners that removed one, and then those that the callbacks added. |
| `Emitter.EmitLeavesPersistent` | include/libnode/detail/events/event_emitter.h:363-367 | The persistent listeners are left in order if and only if no once-listener stands behind a persistent one with an equal function. |
| `Emitter.ShadowedExample` | include/libnode/detail/events/event_emitter.h:363-367 | A once-listener behind a persistent one of the same function removes that one and stays. |
| `QueryString.AddPair` | src/querystring.cpp:15-32 | A key with one value holds a string, with several an array, in order. |
| `QueryString.Parse` | src/querystring.cpp:34-75 | For any way to write the query as pieces without a separator: a piece without an equality sign is a key with the empty value, any other piece is divided at its last equality sign, and the object holds the decoded values of every key in the order of the pieces. |
| `QueryString.ReadOnce` | src/querystring.cpp:51-56 | A piece can be read in one way only: all of it as a key, or divided at its last equality sign. |
| `QueryString.KeyAndValue` | src/querystring.cpp:46-68 | "k=v" is the key k with the value v, for any k, one with equality signs included, and any v without; a text without one is a key. |
| `QueryString.AddPiece` | src/querystring.cpp:51-59 | One piece adds its pair, split at the last equality sign seen. |
| `QueryString.Stringify` | src/querystring.cpp:88-122 | The printing loop over entries and arrays. |
| `QueryString.AppendEntry` | src/querystring.cpp:92-118 | One entry prints as its pairs, an array as one pair for each element, in order. |
| `QueryString.RoundTrip` | src/querystring.cpp:34-122 | For any codec without the separators in its output that decodes what it encodes: parse of stringify gives every key back with its values in order, for any entry order. |
| `QueryString.PercentLossless` | src/querystring.cpp:57-59 | The percent codec is such a codec, for keys and values that it encodes completely and separators that are neither "%" nor one of the 66 unreserved characters. |
| `QueryString.DefaultLossless` | include/libnode/querystring.h:13-15 | So it is for the separators used if none are given, "&" and "=". |
| `PercentCodec.HexDigitBack` | src/util.cpp:236-246 | A hex digit of either case is printed again for its value in upper case, and only hex digits have a value above 0. |
| `PercentCodec.HexChar` | src/util.cpp:248-254 | The digit printed for a value reads back as the value. |
| `PercentCodec.UnreservedIsPlain` | src/util.cpp:269-275 | The test of the encoder holds for the 66 unreserved characters of section 2.3 of RFC 3986, letter by letter, and no others. |
| `PercentCodec.IdealIsSpelled` | src/util.cpp:267-284 | Each byte that is not unreserved becomes "%" and two upper-case digits, and nothing but "%" and unreserved characters is ever written; a text of unreserved characters is its own encoding. |
| `PercentCodec.EscapesCount` | src/util.cpp:276-284 | The bytes that cost five units of the budget are those that are not unreserved. |
| `PercentCodec.EncodeInto` | src/util.cpp:256-290 | The loop with its wrapping budget writes "%", unreserved characters and nothing else, the beginning of the encoding of RFC 3986 and all of it if and only if the budget suffices or wraps around, inside the buffer, with a terminator behind it; a text of unreserved characters stays as it is. |
| `PercentCodec.PercentEncode` | src/util.cpp:360-368 | The same for the string that is returned, with a capacity of 3n+1. |
| `PercentCodec.EncodedPrefix` | src/util.cpp:256-290 | The output is a prefix of the ideal encoding and at most 3n bytes long; it is the whole of it if and only if the budget suffices or wraps around. |
| `PercentCodec.DecodeInto` | src/util.cpp:292-317 | The decoding loop. |
| `PercentCodec.PercentDecode` | src/util.cpp:370-380 | The decoding wrapper. |
| `PercentCodec.RoundTrip` | src/util.cpp:256-317 | Decoding inverts encoding if and only if the encoding is complete. |
| `PercentCodec.BalancedRoundTrip` | src/util.cpp:256-317 | It is, whenever escaped bytes do not outnumber unreserved ones. |
| `PercentCodec.TruncatedExample` | src/util.cpp:279-286 | Two spaces are encoded as "%20%" and decoded as one. |
| `JsonRpc.ToArguments` | exts/jsonrpc/include/libnode/jsonrpc/detail/service.h:291-329 | Named arguments bind exactly when the names are distinct and the keys are the names, and argument i is then the value under name i, in any order of the members; positional ones exactly when their number is right. |
| `JsonRpc.Pigeonhole` | exts/jsonrpc/include/libnode/jsonrpc/detail/service.h:308-324 | As many keys as names, each of them a name, are all of the names. |
| `JsonRpc.RepeatedNameTooFew` | exts/jsonrpc/include/libnode/jsonrpc/detail/service.h:308-324 | With a repeated parameter name an object that has exactly the names as its keys fails the check of the count. |
| `MessagePool.FreeList.Alloc` | include/libnode/detail/free_list.h:25-36 | The oldest listed object is taken. |
| `MessagePool.FreeList.Free` | include/libnode/detail/free_list.h:38-42 | An object is listed while the bound is not reached. |
| `MessagePool.Pool.Create` | include/libnode/detail/http/impl/server_response.h:11-18 | The oldest listed object is taken again, and only without one there is a new one; it was held by nobody and starts with its flags cleared. |
| `MessagePool.Pool.Finished` | include/libnode/detail/http/server.h:300-306 | The finish handler frees a message only if its wrapper is gone. |
| `MessagePool.Pool.WrapperGone` | include/libnode/detail/http/server_request.h:37-43 | The destructor of a wrapper frees its message only if the connection has let go of it. |
| `MessagePool.Pool.LetGo` | include/libnode/detail/http/server_response.h:31-37 | The second of the two parties frees, so each use is released exactly once, and lists the object if there is room. |
| `MessagePool.Live` | include/libnode/detail/free_list.h:25-42 | For any run the pool is where the happenings alone lead; listed objects are distinct, held by no queue and no wrapper, never more than the bound, and each message has been released as often as its uses have ended. |

## Left out

- MessageQueue.InvKept: the steps of a thread (check, offer, send) and of the main loop are atomic, and the machine is a state machine over values, not a class; the memory model of `open_` is not modelled.
- MessageQueue.EmitMessage: the loop as a method covers the undisturbed drain; a drain with posters in between is the sequence of `Poll` steps.
- Async.InvKept: a state machine for the same reason; what the executor does with waiting tasks after `close` (drop or run them) is left open, both are runs of the model; ids do not wrap around.
- HttpOutgoing.OutgoingMessage.Write: strings are byte sequences in UTF-8; other encodings, and a buffer written together with an encoding (which dereferences a null string in `buffer`), are not modelled.
- HttpOutgoing.OutgoingMessage.Buffer: `buffer` compares `data.type()`, and the line end behind a chunk is a static symbol; the model takes the dynamic type of a symbol to be that of a string. libj, which decides it, is not part of this model.
- HttpOutgoing.OutgoingMessage.WriteHead: a header value is one string, not an array, and header tables keep the order of insertion; `Expect: 100-continue` and `writeContinue`, the agent of client requests and the date cache are not modelled, the date is a parameter.
- HttpOutgoing.OutgoingMessage.AssignSocket: 'finish' and 'drain' are results of the operations that emit them, and the server's finish handler is their only listener.
- HttpConnection.Connection.Operate: client end of file with open requests, time-outs, upgrades and parser errors are not modelled; a failing socket is.
- HttpFraming.ReadBack: names and values without line ends, names without a colon, values without blanks around them; the case of the printed hexadecimal digits is the model's choice (lower case), the reader takes both.
- HttpOutgoing.Socket.Write: the socket of a server connection is open, so the queue of a connecting socket (`NetSocket.Socket.Write`) has no part in it; after destroySoon, when nothing more is written, the model keeps its handle until a failure.
- NetSocket.Socket.Connect: reconnecting a used socket, name lookup, binding, timers, ref and unref, and the decoder are not modelled.
- NetSocket.Socket.AfterWrite: listeners and callbacks are lists of calls to write, end, destroySoon and destroy; an error callback may destroy the socket again, other calls from inside destroy are not modelled.
- IncomingMessage.IncomingMessage.Run: one message that is neither aborted nor upgraded; `setEncoding` is not modelled.
- Agent.RunOk: maxSockets does not change during a run; the socket's options and the listeners it loses are not modelled.
- Realpath.Realpath: a call with a callback; `readlink` of what `lstat` called a link does not fail; no limit on the number of links in the kernel; names hold no line terminators (the regular expression would skip a part of the name); a path whose own chain of links never ends is outside the theorem, and there the walk need not end, because a link that was seen is not checked again.
- Realpath.RealpathFor: the walk skips an entry that is its own key without a look at it, so such an entry must hold no link; and the caller's cache has no other entry for a path that goes up from the root. What such an entry with a link leads to is `Realpath.OwnKeyLink`.
- Path.Normalize: a null path (which gives "null") and the Windows branches are not modelled.
- QueryString.Stringify: values are strings, numbers printed as strings, null-like values and arrays of them.
- PercentCodec.DecodeInto: a "%" with one character behind it at the very end reads past the terminator; the precondition excludes it.
- Emitter.EventEmitter.AddListener: the 'newListener' notification and the maximum are not modelled; callbacks append listeners and do nothing else.
- JsonRpc.ToArguments: dispatch, responders and error codes are not modelled.
- MessagePool.Pool.Create: the parser's own reference to the incoming message, which may outlive both parties, and requests aborted by a closed socket are not modelled.
- The client side of HTTP, the other fs operations, dns, os, dgram, url, crypto and the garbage-collected build: wrappers over foreign calls or branches without a further invariant.
