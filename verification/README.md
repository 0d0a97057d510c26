# Verified model of undici's request queue, body writer, retry, fan-out and selection machines

This project models the state machines at the core of undici, an HTTP client for Node.js, and proves what they
promise. `dafny verify dfyconfig.toml` checks all of it. One module stands for one source file or component.

* `ClientQueue`, `Http2`, `Http1`: the client's queue, cut by two indices into a complete, a running and a pending
  section, and the two protocol drivers that splice it. The queue is a class over slots and indices; ghost fields hold
  the three lists a reader has in mind (running, pending, and what left the queue because its caller heard the end),
  and the invariant ties slots to lists. Every run of dispatches, writes, completions, refusals, GOAWAY frames,
  aborts, errors, upgrades, closes and compactions conserves the requests: none is lost or doubled. One thing breaks the
  tie of slots to lists, an abort from inside an HTTP/2 write, and it is said exactly when.
* `AsyncWriter` (with `Numerals`): the piecewise body writer, proved against a reader of both message framings of
  section 6 of RFC 9112.
* `RetryHandler`: one downstream response stitched together from any number of attempts, under a retry budget.
* `Deduplication`, `Decompress`: fan-out and backpressure under consumers that pause, resume and abort from inside the
  callbacks they are given. A callback is any number of calls on the consumer's own controller.
* `MemoryCacheStore`, `FixedQueue`, `TernarySearchTree`: data structures proved equal to something simple (a list in
  order of use with two counters, a sequence, a map).
* `Socks5Address`, `Socks5Client`: the SOCKS5 address codec against the text forms of section 2.2 of RFC 4291, and the
  negotiation against RFC 1928, with replies that arrive in any pieces.
* `BalancedPool`, `RoundRobinPool`: selection among upstream pools and among clients that expire mid-scan.

What the environment does is nondeterministic or a parameter: which writes succeed, what attempts deliver, what
callbacks call, how bytes are cut, what the clock says. Three conventions: user callbacks do not dispatch in the
middle of a step; a retry policy calls back once; an HTTP/2 stream's id is known when a request is bound to it.

Where the code does not do what one would expect, the model keeps what the code does:

* A GOAWAY frame leaves exactly the accepted streams running if ids rise along the running section and no request
  without a stream stands in front. With two sessions at once, or on one session behind a request that was aborted
  inside its write, an accepted stream is refused and its request sent again (`Http2.CutAcrossSessions`,
  `Http2.AcceptedButRefused`; `Http2.CutExactIffRising` and `Http2.CutOfOneSession` say exactly when the cut is right).
* A callback that aborts its own request from inside an HTTP/2 write leaves a running request without a caller or a
  stream, which the end of its stream does not free. If nothing else runs and the error is not a recoverable one, the
  pending index is left past the end of the queue, and a later request counts as running though nothing was sent for it
  (`Http2.Driver.AbortInside` says exactly when, `Http2.AbortedInWrite` is a run). If the peer takes more than one
  stream the resume then throws, kResuming stays 2, and the client does nothing any more (`Http2.Driver.TurnAtBreak`).
* Aborting one waiting HTTP/2 request fails all the others if a GOAWAY frame or a closed socket sent it back, nothing
  runs and the error is not a recoverable one (`Http2.Driver.StreamAbort` says exactly when, `Http2.AbortTakesAll` is a
  run). One that a refused stream sent back leaves the others alone (`Http2.AbortAfterRefusal`).
* A POST at the head of an HTTP/1.1 pipeline is sent a second time, even if its answer has begun, if the consumer of a
  request behind it aborts (`Http1.RepeatedPost`; `Http1.ReplayIsIdempotent` says exactly what is repeated).
* `busy` lets a request with a Blob or a plain iterable as its body be pipelined, and the answer to the request before
  it then fails an assertion (`Http1.PipelinedBlob`; `Http1.Driver.MessageComplete` says exactly when). In the close
  handler nothing catches that, and the second request is left behind for good (`Http1.LeftBehind`; `Http1.Driver.Close`
  says exactly when). An upgrade written with the options reset and blocking both false can have a request pipelined
  behind it, and its answer then fails another assertion (`Http1.PipelinedUpgrade`; `Http1.Driver.Upgrade` says exactly
  when).
* A response that is neither a success nor to be retried is resumed like one if it declares its length: a 404 that
  breaks off is completed with the bytes of a 206 (`RetryHandler.NotFoundThenPartial`, `RetryHandler.JoinedUnderError`;
  `RetryHandler.Run` says that nothing but a resumable first response is joined to).
* A consumer that throws when it hears the end of a response hears an error after it, from a deduplicating handler at
  once (`Deduplication.EndThenError`) and from a retrying one unless the finished response is retried
  (`RetryHandler.EndThenError`); each such throw grants maxRetries further requests (`RetryHandler.BudgetReached`).
  Otherwise there is one terminal event and there are at most maxRetries + 1 requests (`Deduplication.Run`,
  `RetryHandler.Run`). One that throws as it is attached to a deduplicated request hears nothing.
* A deduplicated consumer that is paused when the response ends hears the end on its resume exactly if the trailers
  were truthy (`Deduplication.DeduplicationHandler.Resume`, with a run in `Deduplication.LostEnd`). Those of the clients
  and of the cache always are; a replayed snapshot may have none.
* A SOCKS5 server's answer to the credentials that arrives whole with its method selection is not read until more
  bytes come (`Socks5Client.AnswerUnread`; `Socks5Client.CutsDoNotMatter` has the exact condition). `connect` with an
  address or port that cannot be sent throws with the state already changed (`Socks5Client.Socks5Client.Connect`).
* The divisor of `BalancedPool` is not brought up to date by a connect event or by the removal of an upstream
  (`BalancedPool.StaleDivisor`, `BalancedPool.StaleAfterRemoval`). It is exact afterwards if and only if it is the
  greatest common divisor of the other weights and the raised one, or of the weights left
  (`BalancedPool.BalancedPool.OnConnect`, `BalancedPool.BalancedPool.RemoveUpstream`).
* A name with a capital letter can be inserted into the search tree and never found
  (`TernarySearchTree.CapitalNotFound`; `TernarySearchTree.Findable` says which names can be).

## Model

| member | source | states |
|---|---|---|
| ClientQueue.Client.NoRequestLost | lib/dispatcher/client.js:342-353 | In every valid state each of the numbers given out is found in running, pending or settled, and a request whose caller still waits is in the queue |
| ClientQueue.ConservedSettle | lib/dispatcher/client-h2.js:984-993 | Settling one running request keeps every request in exactly one of the three lists |
| ClientQueue.ConservedHead | lib/dispatcher/client-h1.js:811 | The same for in-order completion, which takes the first of them |
| ClientQueue.ConservedReturn | lib/dispatcher/client-h2.js:1542-1543 | Moving a running request to any place in pending keeps every request in exactly one of the three lists |
| ClientQueue.ConservedTogether | lib/dispatcher/client-h2.js:750 | Moving all of running ahead of pending keeps every request in exactly one of the three lists |
| ClientQueue.Pigeonhole | lib/dispatcher/client.js:342-353 | n different requests numbered below n leave no number out, so counting is enough to know that none is lost |
| ClientQueue.Client.constructor | lib/dispatcher/client.js:351-353 | A new queue is empty and valid |
| ClientQueue.Client.Dispatch | lib/dispatcher/client.js:408-411 | A new request goes to the end of pending; the other lists stay |
| ClientQueue.Client.Update | lib/dispatcher/client-h2.js:144-152 | Setting fields of a request in its slot changes that place of one list and nothing else |
| ClientQueue.Client.ClearHead | lib/dispatcher/client-h2.js:169-175 | In-order completion takes the head off running, leaving a cleared slot below the running index |
| ClientQueue.Client.Advance | lib/dispatcher/client.js:741-742 | The first pending request becomes the last running one |
| ClientQueue.Client.DropPending | lib/dispatcher/client.js:706-709 | A pending request that is over leaves the queue into settled |
| ClientQueue.Client.FailPending | lib/dispatcher/client.js:741-745 | The first pending request is failed and leaves the queue into settled; the running ones stay |
| ClientQueue.Client.CompleteRequest | lib/dispatcher/client-h2.js:165-189 | Exactly the request named leaves running, wherever it stands, or nothing if it is not there; the clamp of the pending index is never needed |
| ClientQueue.Client.SpliceRunning | lib/dispatcher/client-h2.js:183-184 | Out-of-order completion closes the gap inside running and moves the pending index with it |
| ClientQueue.Client.IndexOf | lib/dispatcher/client-h2.js:177 | indexOf from the running index finds the position the two lists give |
| ClientQueue.Client.InsertPending | lib/dispatcher/client-h2.js:1543 | A spliced-in request is the new front of pending |
| ClientQueue.Client.RequeueThenDrop | lib/dispatcher/client-h2.js:161-163 | Requeueing an unsent request one past the pending index, and the splice of the resume loop that follows, leave the queue as it was |
| ClientQueue.Client.CutAndPush | lib/dispatcher/client-h2.js:667-671 | Cutting the queue inside running and pushing the returned requests and the old pending section makes them the new pending section in that order |
| ClientQueue.Client.ReturnRunning | lib/dispatcher/client-h2.js:750 | Resetting the pending index puts all of running, in order, ahead of pending |
| ClientQueue.Client.Compact | lib/dispatcher/client.js:656-660 | Compaction drops cleared slots only: both lists stay, and at most 256 cleared slots remain |
| ClientQueue.Client.OnError | lib/dispatcher/client.js:472-493 | With nothing running an unrecoverable error fails exactly the pending requests, in order; any other error leaves the queue alone |
| Http2.CutExactIffRising | lib/dispatcher/client-h2.js:120-136 | The one-pass cut keeps exactly the accepted streams for every frame if and only if ids never fall along running and none is missing before a present one |
| Http2.CutOfOneSession | lib/dispatcher/client-h2.js:120-136 | On one session the cut keeps exactly what the peer accepted, for every frame, if and only if no running request without a stream stands before one that has a stream |
| Http2.CutAcrossSessions | lib/dispatcher/client-h2.js:120-136 | With two sessions a frame can refuse a stream the peer accepted: a concrete pair of ids |
| Http2.ExactWhenWhole | lib/dispatcher/client-h2.js:120-136 | On one session the cut is exact while every running request is live and has its stream |
| Http2.Driver.constructor | lib/dispatcher/client.js:351-353 | A new driver is valid, with three empty lists |
| Http2.Driver.Dispatch | lib/dispatcher/client.js:408-411 | A dispatched request waits behind the others and the driver invariant holds |
| Http2.Driver.RemoteSettings | lib/dispatcher/client-h2.js:550-569 | A settings frame sets the ceiling and the support for extended CONNECT and changes no list, also where it withdraws extended CONNECT and an error is raised |
| Http2.Driver.RaiseError | lib/dispatcher/client.js:472-493 | An error of the session, the socket, a ping or the settings fails exactly the waiting requests if nothing runs and it is not recoverable, and else changes no list |
| Http2.Driver.GetGoAwayPendingIdx | lib/dispatcher/client-h2.js:120-136 | The loop finds the first running request that the peer did not accept |
| Http2.Driver.FailPending | lib/dispatcher/client.js:743-744 | A request refused before a stream could open leaves pending, failed |
| Http2.Driver.OpenStream | lib/dispatcher/client-h2.js:995-998 | The front of pending gets the next stream id and runs behind all others, so stream ids keep rising along running |
| Http2.Driver.AbortInside | lib/dispatcher/client-h2.js:1064-1095 | A write whose own callback aborts the request leaves the queue broken, with the pending index past its end and everything failed, if and only if nothing else ran and the error is not recoverable; else the invariant holds and the request runs without a caller or a stream |
| Http2.Driver.RunsStranded | lib/dispatcher/client-h2.js:1722 | The request aborted inside its write, moved over, keeps the ids of running rising, and what it takes with it was within its budgets |
| Http2.Driver.Turn | lib/dispatcher/client.js:692-745 | One turn of the resume loop stops if and only if nothing waits, or as many run as may, or the first request was not aborted and there is no live session, or the peer's settings have not come and something runs or the request is an upgrade, or the peer takes no stream; else it consumes exactly the front of pending, which then runs under the next stream id, runs stranded or is failed as its write came to, or finds the session invalid and goes round again; an aborted request never gets a stream; it breaks the queue exactly by an unrecoverable abort from inside a write with nothing running, and the turn after that is Http2.Driver.TurnAtBreak |
| Http2.Driver.TurnAtBreak | lib/dispatcher/client.js:692-706 | On a broken queue the next turn throws, which leaves the client stuck, if and only if more than one request may run |
| Http2.Driver.ResumeLoop | lib/dispatcher/client.js:663-747 | The loop ends, and exactly when nothing more can be sent; it takes a beginning of pending: each request became what its turn's write came to, those that run do so behind the others in order under rising ids, the rest are failed; where a stream was opened no more run than the peer takes, and only one without its settings; it breaks the queue only by an unrecoverable abort from inside a write with nothing running, and then throws if and only if more than one request may run |
| Http2.Driver.Resume | lib/dispatcher/client.js:646-661 | The same with compaction behind it, which moves no list and is not reached where the loop throws |
| Http2.Driver.ResumeClean | lib/dispatcher/client.js:646-747 | If every running request was live and had its stream and no write is aborted from inside, that is still so afterwards |
| Http2.OneGet | lib/dispatcher/client.js:692-745 | A concrete run: one GET on a session whose peer takes a hundred streams, and resuming opens stream 1 for it |
| Http2.OpenedWhole | lib/dispatcher/client-h2.js:995-998 | Writes that are not aborted from inside leave only live requests with streams |
| Http2.Driver.Finalize | lib/dispatcher/client-h2.js:984-993 | A finished request leaves running into settled and everything else keeps its place |
| Http2.Driver.StreamResponse | lib/dispatcher/client-h2.js:1425-1480 | Final headers mark the running request of their stream and move nothing |
| Http2.Driver.StreamEnd | lib/dispatcher/client-h2.js:806-834 | A closed stream completes its request if its response is complete and else fails it, and takes exactly that one out of running; the stream of one aborted inside its write frees nothing; that of one a closed socket sent back fails it in its slot |
| Http2.Driver.StreamAbort | lib/dispatcher/client-h2.js:1064-1095 | An abort settles a running request. One that waits is marked and keeps its slot; with it every other waiting request fails if and only if its abort function still has a stream, nothing runs and the error is not recoverable |
| Http2.Driver.RetryRefusedStream | lib/dispatcher/client-h2.js:1517-1547 | A refused stream returns its request to the front of pending if and only if no response began, it lives, its body is none, a buffer or a Blob, and it was not retried so before; its abort function then has no stream behind it |
| Http2.Driver.SessionGoAway | lib/dispatcher/client-h2.js:629-691 | The first frame of a session cuts running at the first request without a stream or with a stream beyond the last one processed: those before go on; each one after, if it lives, has no final response, was not sent again so before and its body is none, a buffer or a Blob, goes once to the front of pending in order, and else is failed once; old pending follows; a second frame does nothing. The cut is what the peer accepted if all of running is live, has its stream and is on that session |
| Http2.Driver.RefuseUnaccepted | lib/dispatcher/client-h2.js:638-671 | What the cut does to the three lists, for any frame |
| Http2.Driver.TakeRefused | lib/dispatcher/client-h2.js:646-661 | The loop over the refused requests returns the replayable ones and fails the others, in order |
| Http2.GoAwayKeeps | lib/dispatcher/client-h2.js:646-661 | However many refused requests are dealt with, none is lost and none is doubled |
| Http2.Driver.GoAwayAffords | lib/dispatcher/client-h2.js:207-212 | What a refusal returns to pending is within both replay budgets |
| Http2.GoAwayMembers | lib/dispatcher/client-h2.js:655-659 | Exactly the replayable requests are returned, with an attempt counted, and exactly the others dropped: every refused request is in one of the two lists, and nothing else is |
| Http2.RefusedParted | lib/dispatcher/client-h2.js:638-671 | Of the refused requests exactly those that live, without a response, sent again for the first time, with a body that can be, wait again; each of the others is settled, failed |
| Http2.CutAccepts | lib/dispatcher/client-h2.js:120-136 | Everything before the cut has a stream that the frame says was processed, and the request at the cut has none |
| Http2.Driver.SocketClose | lib/dispatcher/client-h2.js:726-757 | A closed socket puts all of running, in order, ahead of pending |
| Http2.Driver.ReplayBound | lib/dispatcher/client-h2.js:58-62 | Refusals move a request back at most twice, once for each cause, so it is opened on at most three streams, and on one more for each closed socket |
| Http2.Driver.Handle | lib/dispatcher/client-h2.js:550-757 | Every event keeps the driver invariant but an unrecoverable abort from inside a write with nothing running; and without aborts from inside writes every running request stays live and keeps its stream; each dispatch counts one request, a resume goes on until nothing more can be sent, an unrecoverable error with nothing running leaves nothing waiting, and a close leaves nothing running |
| Http2.Run | lib/dispatcher/client.js:342-353 | Over every run of events from the start, aborts from inside writes and errors of the session included: lists conserved, with as many requests in them as were dispatched, ids rising, replay bounded; the queue breaks only by an unrecoverable abort from inside a write, and the client is then stuck if and only if more than one request may run |
| Http2.AbortedInWrite | lib/dispatcher/client-h2.js:1064-1095 | A concrete run after which the pending index is past the end of the queue, the next request dispatched counts as running, and the client is stuck if the peer takes more than one stream |
| Http2.ThreeStreams | lib/dispatcher/client-h2.js:1064-1095 | A concrete run on one session that leaves a request without a stream between two that have one |
| Http2.AcceptedButRefused | lib/dispatcher/client-h2.js:120-136 | From there a frame that accepts all three streams leaves one running, and the third is sent again |
| Http2.CutAtStranded | lib/dispatcher/client-h2.js:646-661 | Where that cut falls and what it returns |
| Http2.AbortTakesAll | lib/dispatcher/client-h2.js:1073-1094 | A concrete run in which aborting one of two waiting requests fails both |
| Http2.AbortAfterRefusal | lib/dispatcher/client-h2.js:1535-1543 | A concrete run in which aborting a request that waits after a refused stream leaves the other waiting one alone |
| Http1.Driver.constructor | lib/dispatcher/client.js:351-353 | A new driver is valid, with no socket and three empty lists |
| Http1.Driver.Write | lib/dispatcher/client-h1.js:1301-1326 | A request that is not busy runs last in the pipeline, and all of the pipeline but its head can still be repeated; the socket takes no more after a HEAD or an upgrade unless the reset option says otherwise, and in any case after the last request it may carry or one whose method expects no body |
| Http1.Socket.Mark | lib/dispatcher/client-h1.js:1301-1326 | The flags a write sets, in the order of the options |
| Http1.OneBehind | lib/dispatcher/client-h1.js:935-973 | What busy lets through keeps the pipeline safe to repeat and an upgrade alone |
| Http1.Driver.FailPending | lib/dispatcher/client.js:743-744 | A request refused by the write leaves pending, failed |
| Http1.Driver.Take | lib/dispatcher/client.js:740-745 | The front of pending runs under the marks of its write, runs aborted from inside its write, or is failed, also by a consumer that aborts as soon as it starts; the socket is destroyed exactly by the aborts |
| Http1.Driver.Turn | lib/dispatcher/client.js:692-745 | One turn of the resume loop stops if and only if nothing waits, or as many run as the pipelining factor allows, which is one at least, or the first request was not aborted and there is no live socket, or the socket is marked by an earlier write, or something runs that the request may not go behind; else it takes exactly the front of pending, and only on an unmarked socket unless that was aborted |
| Http1.Driver.Resume | lib/dispatcher/client.js:663-747 | The resume loop takes a beginning of pending until nothing more can be written, and never runs more than the pipelining factor: each request became what its write came to, on a socket that bore no mark of the writes before it; those written run in order, none of them aborted before, the rest are failed |
| Http1.TwoGets | lib/dispatcher/client.js:692-745 | A concrete run: of two GETs the second waits although two may be pipelined, and follows once the response to the first has begun |
| Http1.Driver.MessageComplete | lib/dispatcher/client-h1.js:773-838 | A final response settles exactly the head, on a destroyed socket too if it is the last; the assertion that a request still being written is alone fails if and only if one was being written and more than one ran, and destroys the socket with an error that is not informational, unless it leaves finish |
| Http1.Driver.Abort | lib/dispatcher/client-h1.js:1280-1289 | An abort fails the request where it stands; a running one takes its socket with it under an informational error; order and numbers stay |
| Http1.Driver.ResponseStarts | lib/dispatcher/client-h1.js:690-726 | A response may be the last of its connection, and a final one lifts the block on what follows; no list changes |
| Http1.Driver.Upgrade | lib/dispatcher/client-h1.js:563-606 | An upgrade takes the socket away and settles the head, which ran alone; the assertion that it does fails if and only if something ran behind it, only where the reset option kept the connection open, and destroys the socket |
| Http1.Driver.RaiseError | lib/dispatcher/client-h1.js:977-996 | An error of the socket fails exactly the waiting requests if nothing runs and it is not recoverable |
| Http1.Driver.SocketClose | lib/dispatcher/client-h1.js:1016-1061 | Unless the error is informational a close fails exactly the head; everything else unanswered returns in order ahead of pending |
| Http1.Driver.Close | lib/dispatcher/client-h1.js:1016-1061 | A close event may end the last response first; then the next request is failed instead of the head, or, exactly if one is still being written and more than one ran, the assertion leaves the handler and nothing is given back |
| Http1.Driver.Handle | lib/dispatcher/client-h1.js:563-1061 | Every event keeps the driver invariant: errors, upgrades and failed assertions included; each dispatch counts one request, and a resume goes on until nothing more can be written |
| Http1.ReplayIsIdempotent | lib/dispatcher/client-h1.js:1046-1054 | A close repeats only idempotent requests if and only if the error is not informational, or the head is idempotent or its caller has gone; else a request behind it was aborted; without an informational error all it repeats may be pipelined |
| Http1.RepeatedPost | lib/dispatcher/client-h1.js:1280-1289 | A concrete run in which a POST is written on two sockets because the GET behind it was aborted, with the blocking option at its default |
| Http1.PipelinedUpgrade | lib/dispatcher/client-h1.js:677-687 | A concrete run, with reset and blocking false, in which a request pipelined behind an upgrade makes the assertion of onHeadersComplete fail |
| Http1.FragileWriterIsAlone | lib/dispatcher/client-h1.js:955-969 | A stream, async iterable or form body that is last in the pipeline is alone in it |
| Http1.PipelinedBlob | lib/dispatcher/client-h1.js:814-815 | A concrete run in which a pipelined Blob makes the assertion of onMessageComplete fail |
| Http1.LeftBehind | lib/dispatcher/client-h1.js:1022-1024 | The same in the close handler: the Blob's request stays running on a socket that has closed |
| Http1.Run | lib/dispatcher/client.js:342-353 | Over every run of events: as many requests are in the three lists as were dispatched, running is what was written on the current socket and not answered, in write order, only its head may be unrepeatable, and a close would repeat that only after an abort behind it |
| Numerals.DigitsRead | lib/dispatcher/client-h1.js:1740-1750 | A number written out in a base and read back is the number |
| AsyncWriter.ChunkedIsPrinted | lib/dispatcher/client-h1.js:1728-1760 | Chunks written with the line break before each size are chunks that each end in a line break, shifted by one |
| AsyncWriter.PrintedReads | lib/dispatcher/client-h1.js:1728-1760 | A reader of the chunked coding takes any list of non-empty pieces for their concatenation, whatever follows |
| AsyncWriter.MessageReads | lib/dispatcher/client-h1.js:1768-1795 | A whole chunked message, with anything behind it on the connection, reads as the concatenation of its pieces and leaves exactly what is behind |
| AsyncWriter.LengthReads | lib/dispatcher/client-h1.js:1740-1744 | A body behind the declared length, written in decimal, is read back as that many bytes of what follows |
| AsyncWriter.WholeMessageReads | lib/dispatcher/client-h1.js:1728-1795 | A message of either framing reads as the concatenation of its pieces and leaves what is behind if and only if no length was declared, or that of the pieces, or there are none |
| AsyncWriter.StartedBy | lib/dispatcher/client-h1.js:1728-1755 | What one more piece adds to the wire: the head with the first one, and the size line when chunked |
| AsyncWriter.Writer.constructor | lib/dispatcher/client-h1.js:1659-1671 | A new writer has put nothing on the wire and marks the socket as writing |
| AsyncWriter.Writer.OnLengthMismatch | lib/dispatcher/client-h1.js:1680-1687 | A mismatch marks the socket for reset |
| AsyncWriter.Writer.Put | lib/dispatcher/client-h1.js:1728-1755 | A piece that fits goes on the wire behind the others, framed |
| AsyncWriter.Writer.Write | lib/dispatcher/client-h1.js:1693-1763 | Body bytes on the wire are what was given, or its beginning up to the declared length with the socket marked; a chunk that fits exactly is written, and one byte more throws under strictContentLength and is cut and recorded without it |
| AsyncWriter.Writer.WriteUpToLength | lib/dispatcher/client-h1.js:1710-1726 | A chunk past the declared length is cut to what is left of it, and the mismatch is recorded |
| AsyncWriter.Writer.End | lib/dispatcher/client-h1.js:1768-1815 | On a live socket the message is completed; if it returns normally either exactly the declared length was written or the socket is marked |
| AsyncWriter.WriteIterable | lib/dispatcher/client-h1.js:1601-1645 | A whole body, whatever happens to the socket on the way: if nothing is thrown and it lives, the wire holds head, pieces and ending, and the pieces are the body or its beginning of declared length |
| AsyncWriter.SendAndRead | lib/dispatcher/client-h1.js:1601-1815 | From the writer to a reader at the other end: the reader gets the whole body and nothing behind it if and only if no length was declared, or the body's, or it is empty; a body of another length marks the socket |
| RetryHandler.RetryHandler.constructor | lib/handler/retry-handler.js:101-172 | A new handler has one dispatch behind it and nothing sent |
| RetryHandler.RetryHandler.OnResponseStart | lib/handler/retry-handler.js:373-510 | A response to a resumed request is accepted if and only if it goes on exactly where the last one broke off, to the same end, with a fitting length and the same strong etag, and a first one unless its length is not that of its range; only a success or a status not to be retried reaches downstream; and the response can be resumed if and only if it is a success that says where it stands, or another status with a declared length, for which no etag is kept; a success keeps its etag unless that begins with W/, and then every later part carries the same one |
| RetryHandler.RetryHandler.FirstResponse | lib/handler/retry-handler.js:430-510 | The first accepted response fixes where the stitched response begins and ends: at its Content-Range, or at zero; and its etag is kept if and only if it is a success and the etag does not begin with W/ |
| RetryHandler.RetryHandler.OnResponseStartWithRetry | lib/handler/retry-handler.js:174-193 | A status that is to be retried is not shown downstream and its body is discarded; any other is passed on, and can be resumed if and only if it declares a length and is no answer to HEAD |
| RetryHandler.RetryHandler.OnResponseData | lib/handler/retry-handler.js:512-525 | Bytes passed on extend the stretch of the current attempt; those of a discarded attempt are not passed on |
| RetryHandler.RetryHandler.OnResponseEnd | lib/handler/retry-handler.js:527-554 | The end is passed on if and only if the attempt is not discarded and start is just past the known end, if there is one; all is over then if and only if the consumer does not throw, and else the counter starts again |
| RetryHandler.RetryHandler.OnResponseError | lib/handler/retry-handler.js:572-622 | The error is final if the consumer aborted, the body is used up or the response cannot be resumed; else the k-th decision since the consumer last threw at the end is made with counter k |
| RetryHandler.RetryHandler.Decided | lib/handler/retry-handler.js:586-600 | A retry dispatches once more and asks for what is missing; giving up errors once; after an abort nothing happens |
| RetryHandler.RetryHandler.Retry | lib/handler/retry-handler.js:556-570 | A retry dispatches once more, asking from where the bytes so far end, or errors once if the dispatch throws |
| RetryHandler.RetryHandler.OnAbort | lib/handler/retry-handler.js:624-641 | An abort while the policy decides ends the wait with exactly one error |
| RetryHandler.RetriedIff | lib/handler/retry-handler.js:310-345 | The default policy retries if and only if the count allows it, the error code is listed, and the method and the status are |
| RetryHandler.Waits | lib/handler/retry-handler.js:347-371 | It waits what Retry-After says, up to maxTimeout, and without it minTimeout the first time |
| RetryHandler.DelayBounded | lib/handler/retry-handler.js:361-366 | Every backoff is at most maxTimeout |
| RetryHandler.BackoffGrows | lib/handler/retry-handler.js:361-366 | Without Retry-After each wait is the last one times the factor, up to maxTimeout |
| RetryHandler.Step | lib/handler/retry-handler.js:310-371 | Under the default policy no step dispatches more than 1 + maxRetries times in all, and maxRetries times more for each time the consumer threw at the end |
| RetryHandler.Run | lib/handler/retry-handler.js:373-622 | Over every run: the bytes sent downstream are stretches of the attempts' bodies, each from where the last broke off; one stretch of the representation if all carry one; behind a first success with a strong etag every part came with that same etag; more than one only if the first response is resumable; behind at most one start. When all is over there was one end or error if and only if the consumer never threw at an end, and one more for each time it did; at most 1 + maxRetries * (1 + throws) requests were dispatched |
| RetryHandler.OneStretch | lib/handler/retry-handler.js:387-424 | Attempts that carry one representation are joined to one stretch of it |
| RetryHandler.FirstThenRest | lib/handler/retry-handler.js:387-424 | Whatever the first response carried, downstream gets its bytes up to where the first resumed attempt sets in and the other attempts' from there on |
| RetryHandler.StitchedNext | lib/handler/retry-handler.js:387-424 | A response that is accepted to a resumed request adds a part that begins where the last ended |
| RetryHandler.OtherEtag | lib/handler/retry-handler.js:384-424 | A concrete run: a success with etag a breaks off and the missing bytes come with etag b, which is refused |
| RetryHandler.StrongIsKept | lib/handler/retry-handler.js:485-495 | The etag kept from a success is the one it came with |
| RetryHandler.JoinedUnderError | lib/handler/retry-handler.js:177-186 | For every status that is neither a success nor to be retried, with a declared length, the bytes of another response are joined to it: the run |
| RetryHandler.NotFoundThenPartial | lib/handler/retry-handler.js:177-186 | The same at one input: a 404 completed by a 206 |
| RetryHandler.EndThenError | lib/handler/retry-handler.js:550 | A concrete run in which the consumer throws at the end and hears an error after it |
| RetryHandler.BudgetReached | lib/handler/retry-handler.js:549-550 | For any number of throws at the end and any maxRetries from one on, a run that dispatches as often as the bound allows |
| Decompress.DecompressHandler.constructor | lib/interceptor/decompress.js:149-167 | A new handler is settled, with nothing produced |
| Decompress.DecompressHandler.Pause | lib/interceptor/decompress.js:25-32 | A pause holds the connection back, also from inside a callback |
| Decompress.DecompressHandler.Resume | lib/interceptor/decompress.js:173-180 | A resume hands out all output unless the consumer pauses again, and lets a connection go that was held back for it; inside a drain it only asks for another round |
| Decompress.DecompressHandler.DrainOutput | lib/interceptor/decompress.js:198-238 | After a drain there is no output left, or the handler is over or paused; no wake-up requested during it is lost, and what could be handed out was |
| Decompress.DecompressHandler.DrainLoop | lib/interceptor/decompress.js:198-238 | The two loops go on until no output is left and no drain was asked for meanwhile, or the consumer pauses, or all is over; something is handed out if there was anything |
| Decompress.DecompressHandler.HandOut | lib/interceptor/decompress.js:213-229 | A piece is handed out only while not paused, in order, and within the size limit |
| Decompress.DecompressHandler.ResumeUpstreamIfNeeded | lib/interceptor/decompress.js:189-196 | The connection runs again only if neither the consumer nor the decompressor holds it back |
| Decompress.DecompressHandler.FinishIfReady | lib/interceptor/decompress.js:240-248 | The end is sent if and only if it is due and the consumer is not pausing, and once |
| Decompress.DecompressHandler.OnDecompressionEnd | lib/interceptor/decompress.js:250-258 | When the decompressor is done the consumer hears the end at once, unless it pauses |
| Decompress.DecompressHandler.OnDrain | lib/interceptor/decompress.js:386-396 | A decompressor that takes input again no longer holds the connection back: it is let go, unless the consumer pauses or all input has come |
| Decompress.FullThenDrained | lib/interceptor/decompress.js:386-396 | A concrete run: a chunk fills the decompressor, it drains, and the connection is let go |
| Decompress.DecompressHandler.OnResponseData | lib/interceptor/decompress.js:492-501 | A full decompressor holds the connection back |
| Decompress.DecompressHandler.OnResponseError | lib/interceptor/decompress.js:523-534 | At most one terminal event is sent |
| Decompress.Run | lib/interceptor/decompress.js:169-258 | Over every run with re-entrant consumers: a beginning of the output is delivered, all of it before the end, at most one terminal event, within the limit, and between events nothing waits for a wake-up |
| Deduplication.WaitingHandler.Resume | lib/handler/deduplication-handler.js:343-362 | A resume of a consumer that has chunks waiting hands out at least one, empties the buffer in order unless the consumer pauses or aborts in it, and sends an end that was kept |
| Deduplication.WaitingHandler.Flush | lib/handler/deduplication-handler.js:419-445 | The flush hands out buffered chunks in order until paused, aborted or empty, under any re-entrant calls |
| Deduplication.WaitingHandler.Buffer | lib/handler/deduplication-handler.js:398-414 | A buffered chunk is counted, and the consumer fails if and only if the buffer would pass its limit |
| Deduplication.WaitingHandler.Offer | lib/handler/deduplication-handler.js:216-240 | A consumer that pauses is handed nothing: the chunk is buffered behind the others, or fails it at the limit; one that does not pause is handed exactly that chunk; delivered and buffered stay the chunks received |
| Deduplication.WaitingHandler.Finish | lib/handler/deduplication-handler.js:266-285 | At the end of the response a consumer that does not pause hears it once, after everything buffered, and an error too if and only if it throws; one that pauses keeps the trailers |
| Deduplication.WaitingHandler.End | lib/handler/deduplication-handler.js:451-466 | The consumer is over and has had everything; it hears the end, and an error if it throws |
| Deduplication.WaitingHandler.Start | lib/handler/deduplication-handler.js:115-137 | A consumer is over after the callbacks of its attachment if and only if it threw or aborted in them |
| Deduplication.WaitingHandler.Error | lib/handler/deduplication-handler.js:472-489 | A failure reaches a consumer that is not over, once, and drops its buffer |
| Deduplication.TotalAppend | lib/handler/deduplication-handler.js:406-408 | bufferedBytes follows the buffer |
| Deduplication.DeduplicationHandler.constructor | lib/handler/deduplication-handler.js:93-98 | A new handler has nobody attached and nothing received |
| Deduplication.DeduplicationHandler.AddWaitingHandler | lib/handler/deduplication-handler.js:106-141 | A handler is attached if and only if no data has come yet, so it misses nothing; one that throws then is over |
| Deduplication.DeduplicationHandler.Prune | lib/handler/deduplication-handler.js:491-493 | Exactly the handlers that are over leave the list |
| Deduplication.DeduplicationHandler.OnResponseStart | lib/handler/deduplication-handler.js:168-200 | The callbacks of a response start hand out no chunk and no end |
| Deduplication.DeduplicationHandler.OnResponseData | lib/handler/deduplication-handler.js:207-243 | Exactly the attached consumers that are neither over nor pausing are handed the chunk; every one not over has delivered then buffered equal to all chunks received, within its limit |
| Deduplication.DeduplicationHandler.OfferAll | lib/handler/deduplication-handler.js:216-240 | The loop offers the chunk to each handler once |
| Deduplication.DeduplicationHandler.OnResponseEnd | lib/handler/deduplication-handler.js:249-289 | Every consumer not pausing has the whole body and hears the end once |
| Deduplication.DeduplicationHandler.OnResponseError | lib/handler/deduplication-handler.js:295-313 | After an error every attached handler is over, and each one that was not heard exactly one error |
| Deduplication.DeduplicationHandler.Resume | lib/handler/deduplication-handler.js:343-362 | A consumer resumed after the end has the whole body, and hears the end if and only if there were trailers to keep |
| Deduplication.LostEnd | lib/handler/deduplication-handler.js:343-362 | A concrete run of one consumer that has everything and never hears the end |
| Deduplication.EndThenError | lib/handler/deduplication-handler.js:451-467 | A concrete run of one consumer that throws at its end and hears both |
| Deduplication.DeduplicationHandler.Abort | lib/handler/deduplication-handler.js:371-388 | An aborted consumer is over; the others see no difference |
| Deduplication.DeduplicationHandler.Serves | lib/handler/deduplication-handler.js:207-289 | The invariant read for one consumer: delivered then buffered is what was received until it fails, buffered only while paused and within the limit, one end and that after everything; a consumer that was not refused hears at most one end or error if and only if it neither threw at its end nor aborted after it, and how many is said exactly |
| Deduplication.Run | lib/handler/deduplication-handler.js:106-494 | Over every run, with consumers that call their controllers inside callbacks and between events, and may throw in any of them, each consumer is served so, and none is handed anything while it pauses or once it is over; while the response neither ended nor failed the handler has received exactly the chunks the events brought |
| MemoryCacheStore.FindEntry | lib/cache/memory-cache-store.js:255-266 | The first matching variant: it matches and none before it does |
| MemoryCacheStore.SurvivorsAreNewest | lib/cache/memory-cache-store.js:204-223 | Survivors besides the new entry are a suffix of the recency order; nothing goes once both targets hold, something goes while one does not |
| MemoryCacheStore.SurvivorsAreSome | lib/cache/memory-cache-store.js:204-223 | Eviction invents nothing and never drops the entry to keep |
| MemoryCacheStore.EvictedWithinLimits | lib/cache/memory-cache-store.js:200-235 | After eviction both limits hold; the new entry is given up if and only if it alone breaks one; else the oldest go, as many as it takes and no more |
| MemoryCacheStore.ReadYourWrite | lib/cache/memory-cache-store.js:255-280 | A stored entry is what a search for its own key finds if and only if it is fresh and what it varies on is what its request had, whatever other variants share the URL |
| MemoryCacheStore.SurvivorsShielded | lib/cache/memory-cache-store.js:204-223 | Eviction never brings an older variant before the new one that would hide it |
| MemoryCacheStore.WrittenFacts | lib/cache/memory-cache-store.js:155-172 | A write replaces the first match in place or appends, makes its URL the most recent, and changes size and count by exactly that |
| MemoryCacheStore.PlacedFacts | lib/cache/memory-cache-store.js:162-170 | After a write no older variant of the URL that matches stands before the new entry |
| MemoryCacheStore.MovedFacts | lib/cache/memory-cache-store.js:103-106 | Deleting and setting a key moves its variants to the end of the order and changes no other |
| MemoryCacheStore.LookupMoved | lib/cache/memory-cache-store.js:103-106 | Moving a URL to the end changes no lookup |
| MemoryCacheStore.MemoryCacheStore.constructor | lib/cache/memory-cache-store.js:31-71 | A new store is empty and accounted for |
| MemoryCacheStore.MemoryCacheStore.Evict | lib/cache/memory-cache-store.js:200-235 | The two loops over the buckets leave exactly what eviction on the flat list leaves, and the counters stay the sums |
| MemoryCacheStore.MemoryCacheStore.EvictFrom | lib/cache/memory-cache-store.js:205-214 | The inner loop is eviction on one bucket in front of the later ones |
| MemoryCacheStore.MemoryCacheStore.Remove | lib/cache/memory-cache-store.js:225-234 | Giving up the new entry takes exactly it out, and with it a bucket left empty |
| MemoryCacheStore.MemoryCacheStore.Store | lib/cache/memory-cache-store.js:154-196 | After every write size and count are the sums over what is stored and within their limits, and the entry is kept if and only if it fits on its own |
| MemoryCacheStore.MemoryCacheStore.Get | lib/cache/memory-cache-store.js:93-122 | A hit is the first match, stored for this origin and path under this method, fresh, and for every header it varies on the request has the same value or lacks it too; a miss means that nothing stored for the URL is all of that; it changes the order of use and nothing that is stored |
| MemoryCacheStore.HeaderValueEquals | lib/cache/memory-cache-store.js:287-312 | Two header values, each missing, a string or an array, match if and only if they are equal |
| MemoryCacheStore.Matches | lib/cache/memory-cache-store.js:255-280 | An entry matches if and only if it is fresh, or freshness is not asked, the method is the same, and so is every header it varies on |
| MemoryCacheStore.MemoryCacheStore.Delete | lib/cache/memory-cache-store.js:240-252 | Everything stored for a URL goes, nothing else, and the counters follow |
| MemoryCacheStore.WriteStream.Write | lib/cache/memory-cache-store.js:139-153 | A body is collected chunk by chunk and given up exactly when it passes maxEntrySize |
| MemoryCacheStore.WriteStream.Final | lib/cache/memory-cache-store.js:154-196 | The collected body is stored whole |
| MemoryCacheStore.WriteThenGet | lib/cache/memory-cache-store.js:93-196 | Read your write: a body that fits comes back for its own key if and only if it is fresh and its own request had what it varies on, whatever else is stored |
| MemoryCacheStore.OtherEncoding | lib/cache/memory-cache-store.js:93-196 | A concrete run: what was stored for gzip is a hit for gzip and a miss for br |
| FixedQueue.FixedCircularBuffer.IsEmpty | lib/dispatcher/fixed-queue.js:72-74 | top == bottom exactly if the ring is empty |
| FixedQueue.FixedCircularBuffer.IsFull | lib/dispatcher/fixed-queue.js:77-79 | The mask test holds exactly if all slots but one are taken |
| FixedQueue.FixedCircularBuffer.Push | lib/dispatcher/fixed-queue.js:85-88 | A push on a ring that is not full adds one item at the end, round the ring |
| FixedQueue.FixedCircularBuffer.Shift | lib/dispatcher/fixed-queue.js:91-97 | A shift returns the first item or nothing if and only if there is none |
| FixedQueue.MaskWraps | lib/dispatcher/fixed-queue.js:86-87 | Masking with kSize - 1 is wrapping at kSize, as the model's Wrap does |
| FixedQueue.FixedQueue.IsEmpty | lib/dispatcher/fixed-queue.js:110-112 | Looking at the head ring alone tells whether the queue is empty |
| FixedQueue.FixedQueue.Push | lib/dispatcher/fixed-queue.js:115-122 | The sequence grows by the item at its end, with a new ring when the head is full |
| FixedQueue.FixedQueue.Shift | lib/dispatcher/fixed-queue.js:125-134 | The first item of the sequence, or nothing if and only if it is empty; an emptied ring leaves the chain |
| FixedQueue.FixedQueue.DropTail | lib/dispatcher/fixed-queue.js:128-132 | An empty tail ring leaves the chain without changing the sequence |
| FixedQueue.ComesOutInOrder | lib/dispatcher/fixed-queue.js:110-134 | Over any run, what came out followed by what is left is what went in, in order |
| FixedQueue.Run | lib/dispatcher/fixed-queue.js:61-135 | Any run of pushes and shifts on the chain of rings returns what a plain sequence would |
| TernarySearchTree.GetPut | lib/core/tree.js:45-122 | An insertion is found again and disturbs no other key |
| TernarySearchTree.GetChain | lib/core/tree.js:24-38 | A new chain of nodes holds its key and no other |
| TernarySearchTree.PutOrdered | lib/core/tree.js:45-85 | Insertion keeps codes falling from left to right, and ASCII |
| TernarySearchTree.SearchMissesNothing | lib/core/tree.js:91-121 | Turning one way at each node finds exactly what a search of the whole tree would |
| TernarySearchTree.LowerSetsBit | lib/core/tree.js:104-107 | What the search compares is the byte with bit 5 set where it is a capital letter |
| TernarySearchTree.Findable | lib/core/tree.js:104-107 | A name can be looked up by some key if and only if it is bytes without capital letters |
| TernarySearchTree.CapitalNotFound | lib/core/tree.js:98-120 | A concrete name that is inserted and not found |
| TernarySearchTree.TstNode.Build | lib/core/tree.js:24-38 | The constructor makes a chain for the rest of the key, or throws exactly for an index past the end or a code that is not ASCII |
| TernarySearchTree.TstNode.Add | lib/core/tree.js:45-85 | add changes the tree in place to what insertion makes of it, or throws exactly for a key that is not ASCII and leaves it unchanged |
| TernarySearchTree.TstNode.Search | lib/core/tree.js:91-121 | The two loops find what the tree holds under the lower-case form of the key |
| TernarySearchTree.TernarySearchTree.Insert | lib/core/tree.js:133-139 | The map gains the key, or the call throws exactly for an empty or non-ASCII key and the tree is as it was |
| TernarySearchTree.TernarySearchTree.Lookup | lib/core/tree.js:145-147 | The map at the lower-case form of the key, or null |
| TernarySearchTree.InsertAllThenLookup | lib/core/tree.js:124-148 | After any run of insertions a lookup gives the last value inserted under the lower-case form of its key, or null |
| Socks5Address.SplitJoin | lib/core/socks5-utils.js:69-83 | Parts joined by a separator none of them has come apart again |
| Socks5Address.ShiftIsTimes | lib/core/socks5-utils.js:58-59 | The number a group prints is its first byte shifted by eight bits and joined to the second |
| Socks5Address.WrittenBytes | lib/core/socks5-utils.js:72-86 | Groups that fit are written side by side from an offset; too many throw |
| Socks5Address.ParseIPv6 | lib/core/socks5-utils.js:47-90 | The loops over the buffer compute the specified bytes, or throw where it does |
| Socks5Address.FullForm | lib/core/socks5-utils.js:82-87 | Groups without :: fill the buffer from the front, zeros behind, and throw exactly beyond eight |
| Socks5Address.CompressedForm | lib/core/socks5-utils.js:65-81 | a::b expands to the zero-filled address; with too many groups what is overwritten, and when it throws |
| Socks5Address.EmbeddedTail | lib/core/socks5-utils.js:52-62 | Behind any colon a dotted address says the same as its two groups |
| Socks5Address.FullFormEmbedded | lib/core/socks5-utils.js:52-87 | Six groups and a dotted tail give their sixteen bytes |
| Socks5Address.CompressedFormEmbedded | lib/core/socks5-utils.js:52-81 | a::b with a dotted tail expands to the zero-filled address ending in the four octets |
| Socks5Address.PrintedIsParsed | lib/core/socks5-utils.js:156-160 | Any sixteen bytes printed as eight groups parse back to themselves |
| Socks5Address.DottedReads | lib/core/socks5-utils.js:14-19 | Any four octets printed with dots are recognised and read back |
| Socks5Address.ReadsDotted | lib/core/socks5-utils.js:14-19 | A dotted address that is recognised is the only text of its octets |
| Socks5Address.TextNumber | lib/core/socks5-utils.js:14-19 | A decimal number without leading zeros is what its value prints |
| Socks5Address.ParseResponseAddress | lib/core/socks5-utils.js:116-181 | It succeeds if and only if a type, its address and a port stand at the offset, reads exactly those bytes, and they are what buildAddressBuffer makes of what it returns |
| Socks5Address.AddressEndsOnce | lib/core/socks5-utils.js:116-181 | No address is the beginning of another, so nothing else can be read where one stands |
| Socks5Address.EncodedSaysTheSame | lib/core/socks5-utils.js:12-40 | What an address is sent as says the same address: the same dotted text, the same name, or a text with the same bytes |
| Socks5Address.BuildThenParse | lib/core/socks5-utils.js:99-181 | parseResponseAddress inverts buildAddressBuffer, whatever stands before and behind, with bytesRead the whole length |
| Socks5Client.ReplyDecides | lib/core/socks5-client.js:318-386 | A whole reply of section 6 of RFC 1928 decides, whatever follows: its code, or the address it names and the port of its last two bytes, high byte first |
| Socks5Client.DecidedByReply | lib/core/socks5-client.js:318-348 | The request is granted, or refused with a code, if and only if a whole reply says so, and stays open exactly while what arrived can still become one |
| Socks5Client.Decided | lib/core/socks5-client.js:318-386 | What is decided stays decided, whatever else arrives |
| Socks5Client.CutsDoNotMatter | lib/core/socks5-client.js:98-117 | The cutting of the negotiation makes no difference if and only if the answer to the credentials did not come whole with the method selection as the last bytes |
| Socks5Client.AnswerUnread | lib/core/socks5-client.js:98-117 | The server's two answers in one piece leave the client waiting, and in two pieces do not |
| Socks5Client.Socks5Client.constructor | lib/core/socks5-client.js:82-87 | The methods offered are user name and password, if both are given, and then none |
| Socks5Client.Socks5Client.Handshake | lib/core/socks5-client.js:155-177 | The greeting lists the methods, once |
| Socks5Client.Socks5Client.OnData | lib/core/socks5-client.js:98-117 | Each state reads the buffered bytes as its own reply; other states keep them; credentials are sent exactly when the server selects them |
| Socks5Client.Socks5Client.HandleHandshakeResponse | lib/core/socks5-client.js:182-209 | The method selection of section 3 of RFC 1928, with each way to fail |
| Socks5Client.Socks5Client.SendAuthRequest | lib/core/socks5-client.js:214-244 | The request of RFC 1929, or an error for absent or oversized credentials |
| Socks5Client.Socks5Client.HandleAuthResponse | lib/core/socks5-client.js:249-268 | The answer of RFC 1929, with each way to fail |
| Socks5Client.Socks5Client.Connect | lib/core/socks5-client.js:275-289 | The request is sent if and only if the client is authenticated and the address and port can be; the state changes in any case once authenticated |
| Socks5Client.Socks5Client.HandleConnectResponse | lib/core/socks5-client.js:318-386 | The state, the bound address and port, or the error are what the reply bytes decide |
| Socks5Client.Grows | lib/core/socks5-client.js:98-117 | Handling one more piece is what the negotiation makes of all bytes so far |
| Socks5Client.ReceiveReply | lib/core/socks5-client.js:98-117 | For any cutting of the reply the end depends on its bytes alone, also with bytes buffered before the request |
| Socks5Client.ReceiveNegotiation | lib/core/socks5-client.js:98-117 | For any cutting of the negotiation the outcome is a function of its bytes and of how many came before the last piece |
| Socks5Client.Session | lib/core/socks5-client.js:98-386 | With a server that goes along, a whole session ends connected to the address the reply names, however the bytes are cut |
| BalancedPool.CommonDivisors | lib/dispatcher/balanced-pool.js:39-43 | A step of Euclid keeps the common divisors |
| BalancedPool.GcdDivisors | lib/dispatcher/balanced-pool.js:36-45 | The divisors of the greatest common divisor are exactly the common divisors |
| BalancedPool.ExactIsGcd | lib/dispatcher/balanced-pool.js:121-128 | A number whose divisors are exactly the common divisors of all weights is the one computed from them, and no other |
| BalancedPool.GcdOfOthers | lib/dispatcher/balanced-pool.js:121-128 | The divisor of all weights is that of any one of them and the divisor of the others, in whatever order |
| BalancedPool.GcdUnchanged | lib/dispatcher/balanced-pool.js:36-45 | A number leaves a greatest common divisor as it is if and only if that divides it |
| BalancedPool.GetGreatestCommonDivisor | lib/dispatcher/balanced-pool.js:36-45 | The loop computes the greatest common divisor: its divisors are exactly the common divisors of both numbers |
| BalancedPool.BalancedPool.constructor | lib/dispatcher/balanced-pool.js:52-79 | A new pool is valid and its divisor exact; it starts in front of the first position at weight zero |
| BalancedPool.BalancedPool.UpdateBalancedPoolStats | lib/dispatcher/balanced-pool.js:121-128 | The stored divisor is the greatest common divisor of all weights |
| BalancedPool.BalancedPool.AddUpstream | lib/dispatcher/balanced-pool.js:81-119 | A live origin is not added twice; a new one puts every weight to the maximum and the divisor is exact |
| BalancedPool.BalancedPool.RemoveUpstream | lib/dispatcher/balanced-pool.js:130-144 | Only the live pool of the origin leaves the list. The divisor, which stays, is exact then if and only if it is the divisor of the weights left; from an exact one, if and only if the divisor of the weights left divides the one that went |
| BalancedPool.BalancedPool.OnConnect | lib/dispatcher/balanced-pool.js:94-96 | One weight is raised up to the maximum. The divisor, which stays, is exact then if and only if it is the greatest common divisor of the raised weight and the other weights |
| BalancedPool.BalancedPool.OnConnectionError | lib/dispatcher/balanced-pool.js:98-110 | One weight is lowered down to 1 and the divisor is exact again |
| BalancedPool.ScanVisitsOnce | lib/dispatcher/balanced-pool.js:174-176 | A scan visits each pool exactly once |
| BalancedPool.BalancedPool.Advance | lib/dispatcher/balanced-pool.js:175-186 | The index moves on and the current weight drops by the divisor at position 0, starting over from the maximum |
| BalancedPool.BalancedPool.Scan | lib/dispatcher/balanced-pool.js:174-205 | The loop stops at the first available pool with the current weight, or ends having found the first heaviest available one |
| BalancedPool.BalancedPool.GetDispatcher | lib/dispatcher/balanced-pool.js:162-214 | Nothing is returned if and only if every pool needs drain, is closed or is destroyed; else the first pool at or above the current weight at its visit, or, if there is none, the first heaviest, from which the next call goes on |
| BalancedPool.Round | lib/dispatcher/balanced-pool.js:162-214 | With every pool available at full weight a round of calls gives each pool once, in order |
| BalancedPool.FourthGoesLow | lib/dispatcher/balanced-pool.js:162-214 | A concrete run: of pools weighing 85 and 100 the lighter one gets the fourth request, when the weight asked for has dropped to its own |
| BalancedPool.RaisedWeight | lib/dispatcher/balanced-pool.js:94-96 | After a weight is raised the old divisor divides all weights if and only if it divides the raised one; that is implied by being exact, and does not imply it |
| BalancedPool.StaleDivisor | lib/dispatcher/balanced-pool.js:94-110 | A concrete run after which the stored divisor divides all weights and is not their greatest common divisor |
| BalancedPool.StaleAfterRemoval | lib/dispatcher/balanced-pool.js:130-144 | A concrete run in which the removal of an upstream leaves a divisor that is not exact |
| RoundRobinPool.FirstUsableIsFirst | lib/dispatcher/round-robin-pool.js:116-133 | The client chosen is neither expired nor in need of drain, and all before it in the rotation are one or the other |
| RoundRobinPool.RoundRobinPool.constructor | lib/dispatcher/round-robin-pool.js:46-76 | connections of 0 is no limit |
| RoundRobinPool.RoundRobinPool.Retire | lib/dispatcher/pool-base.js:273-296 | A retired client leaves the list, order kept, and closes once |
| RoundRobinPool.RoundRobinPool.RemoveAt | lib/dispatcher/pool-base.js:298-306 | After a removal the pool needs drain if and only if no client left is free |
| RoundRobinPool.RotatedRemove | lib/dispatcher/round-robin-pool.js:121-125 | Removing the client at the index and stepping back makes the client behind it next |
| RoundRobinPool.RotatedNext | lib/dispatcher/round-robin-pool.js:116-132 | A client passed over comes round last |
| RoundRobinPool.RoundRobinPool.Look | lib/dispatcher/round-robin-pool.js:116-133 | A turn of the loop takes the next client in the rotation, removes it or passes it over, and the rotation goes on behind it |
| RoundRobinPool.RoundRobinPool.Scan | lib/dispatcher/round-robin-pool.js:115-133 | The loop ends though the list shrinks under it; only expired clients left, and the rest come round in order |
| RoundRobinPool.RoundRobinPool.GetDispatcher | lib/dispatcher/round-robin-pool.js:104-141 | The first usable client in the rotation, or a new one; it declines if and only if none is usable and as many as the limit allows are left, all in need of drain. A client leaves only if it connected longer ago than it may live, and after a whole round none is left that did |
| RoundRobinPool.RoundRobinPool.HasDispatcher | lib/dispatcher/round-robin-pool.js:143-166 | Expired clients leave up to the first usable one; the answer is no exactly at the limit without one; what had its turn still stands up to the index |
| RoundRobinPool.LeftOfBeginning | lib/dispatcher/round-robin-pool.js:149-153 | What is left of the clients before the index is the beginning of what is left |

## Left out

- Request objects: a request is a value in its queue slot, found by its number, so two references to one request are not modelled; the field writes of a handler are one update of the slot.
- Event handlers of the original end by resuming the client; here resuming is a separate step that may follow any other.
- Two live HTTP/2 sessions: Http2.CutOfOneSession is for requests on one session; the lists are conserved in any case.
- Http2.Run: it ends where the queue breaks; what the client does with indices past the end of its queue is shown for the next turn and the next request only.
- Http2.Driver.SocketClose: the close of a socket that was already replaced, which the original ignores, is not an event here.
- Teardown of a destroyed client, TLS server name changes and handleConnectError, where indices move outside this state machine.
- kNeedDrain and the drain event of a client, keep-alive and idle timers, and the interim responses of both protocols.
- Message parsing, decompression, TLS, real sockets and timers: their results are nondeterministic choices or parameters.
- AsyncWriter.Writer.Write: a body chunk is a string of one character per byte; corking and timer refreshes are not modelled.
- RetryHandler with throwOnError false, the controller that forwards to the current connection, and the text of the Range header; a Content-Length that is no number.
- RetryHandler.RetryHandler.OnResponseStart: the attempt's Content-Range must lie within the body the attempt carries, which is the assumption that servers carry what they announce.
- Decompress.DecompressHandler.OnResponseData: only the decoding path; without a decoder chunks pass through. An aborted connection reports its error before the call returns.
- Deduplication.DeduplicationHandler.Resume: a consumer's calls from inside its callbacks act on its own handler, and the list is pruned after the outermost one.
- What the callbacks of a deduplicated request's own handler throw before the end: its request then fails, which is Deduplication.DeduplicationHandler.OnResponseError.
- Decompress.Run: a consumer that throws while it is handed decoded data; nothing in the original catches that, and the exception leaves the decoder's event.
- MemoryCacheStore.MemoryCacheStore.Store: the maxSizeExceeded event is not modelled, nor are assertions on the shape of keys and values; a body chunk is a string of one character per byte.
- FixedQueue.FixedQueue.Push: items are never undefined, which the original's rings take for an empty slot.
- TernarySearchTree.TstNode.Add: the loop over nodes is written as a recursion, with the step into a missing or present child in TernarySearchTree.TstNode.AddBelow.
- Socks5Address.ParseIPv6: parseInt's leading white space, sign and 0x prefix are not modelled; net.isIPv6 is a parameter and net.isIPv4 is taken to accept four decimal numbers up to 255 without leading zeros.
- Socks5Address.ParseResponseAddress: the name of a domain stays bytes; its decoding as UTF-8 is not modelled.
- Socks5Client.Socks5Client.OnData: callbacks on authenticated and connected run after the data was handled; the close event may come at any time and is Socks5Client.Socks5Client.OnClose.
- BalancedPool.BalancedPool.GetDispatcher: the maximum weight and the penalty are positive whole numbers; weighted fairness over many calls is not claimed, as no clean ratio holds with a stale divisor.
- RoundRobinPool.RoundRobinPool.GetDispatcher: the clock stands still within a call; the pool's own queue and its draining are not modelled.
- Interceptors other than these two, redirects, proxies, DNS, mocks, diagnostics, statistics, option validation and the SQLite cache store.
