/** The HTTP/1.1 driver of lib/dispatcher/client-h1.js over the request queue: what may be pipelined
behind what, completion in order, and what a closed socket fails and what it replays (sections 9.3.1
and 9.3.2 of RFC 9112). */
module Http1 {
  import opened ClientQueue
  import opened Wrappers

  class Socket {
    var writing: bool      // kWriting: a body is being written piece by piece
    var reset: bool        // kReset: no further request on this socket
    var blocking: bool     // kBlocking: wait for the response to start
    var validating: bool   // kIdleSocketValidation is 1
    var destroyed: bool
    var closed: bool       // its close event was emitted
    /** kError is an InformationalError. */
    var informational: bool

    // History: the numbers of the requests written here, in order, and how many were answered; whether a request was
    // aborted behind the head of the pipeline; whether an upgrade was written with the reset option false.
    ghost var written: seq<nat>
    ghost var answered: nat
    ghost var abortedBehind: bool
    ghost var keptOpen: bool

    constructor ()
      ensures !writing && !reset && !blocking && !validating && !destroyed && !closed && !informational
      ensures written == [] && answered == 0 && !abortedBehind && !keptOpen
    {
      writing, reset, blocking, validating, destroyed, closed, informational := false, false, false, false, false, false, false;
      written, answered, abortedBehind, keptOpen := [], 0, false, false;
    }

    /** The flags writeH1 sets before it writes. */
    method Mark(request: Request, isHead: bool, reset: Option<bool>, last: bool, blocking: bool)
      requires !this.reset && !this.blocking
      modifies `writing, `reset, `blocking, `validating, `written, `keptOpen
      ensures (writing <==> !request.bodyEmpty && request.body !in {NoBody, Buffer}) && this.blocking == blocking && !validating
      ensures this.reset <==> last || (if reset.Some? then reset.value else isHead || request.upgrade)
      ensures written == old(written) + [request.id]
      ensures keptOpen == (old(keptOpen) || (request.upgrade && reset == Some(false)))
    {
      this.reset := isHead || request.upgrade;
      if reset.Some? {
        keptOpen := keptOpen || (request.upgrade && !reset.value);
        this.reset := reset.value;
      }
      if last {
        this.reset := true;
      }
      this.blocking, validating := blocking, false;
      writing := Piecewise(request);
      written := written + [request.id];
    }
  }

  function Ids(s: seq<Request>): (ids: seq<nat>)
    ensures |ids| == |s| && forall i :: 0 <= i < |s| ==> ids[i] == s[i].id
  {
    seq(|s|, i requires 0 <= i < |s| => s[i].id)
  }

  /** A body that may break off under other requests and cannot be sent again. */
  predicate Fragile(r: Request) {
    !r.bodyEmpty && (r.body.Stream? || r.body.AsyncIterable? || r.body.FormData?)
  }

  /** What may be written behind an unanswered request. */
  predicate Pipelinable(r: Request) {
    r.idempotent && !r.upgrade && !Fragile(r)
  }

  /** The body goes through an AsyncWriter. */
  predicate Piecewise(r: Request) {
    !r.bodyEmpty && !r.body.NoBody? && !r.body.Buffer?
  }

  /** Only the head of a pipeline may be something that cannot be repeated. */
  ghost predicate SafePipeline(running: seq<Request>) {
    forall i :: 0 < i < |running| ==> Pipelinable(running[i])
  }

  /** While a body is being written, its request is the last one written. */
  ghost predicate WriterLast(running: seq<Request>, writing: bool) {
    writing && running != [] ==> Piecewise(running[|running| - 1])
  }

  /** Failing a request where it stands changes neither numbers nor what may be repeated. */
  lemma FailedInPlace(running: seq<Request>, k: nat, writing: bool)
    requires k < |running|
    ensures var running' := running[k := running[k].Failed()];
            && (SafePipeline(running) ==> SafePipeline(running'))
            && (WriterLast(running, writing) ==> WriterLast(running', writing))
            && Ids(running') == Ids(running)
  {
    assert Ids(running[k := running[k].Failed()]) == Ids(running);
  }

  /** An informational error spares the head of a pipeline. One that still waits and must not be repeated is spared only
      if a request behind it was aborted. */
  ghost predicate HeadSpared(running: seq<Request>, informational: bool, abortedBehind: bool) {
    informational && running != [] && running[0].Live() && !running[0].idempotent ==> abortedBehind
  }

  /** An upgrade at the head has nothing behind it and lets nothing follow, unless the reset option kept the connection
      open. */
  ghost predicate UpgradeAlone(running: seq<Request>, reset: bool, keptOpen: bool) {
    running != [] && running[0].upgrade && !keptOpen ==> |running| == 1 && reset
  }

  lemma BehindHead(running: seq<Request>, writing: bool, reset: bool, keptOpen: bool, informational: bool, aborted: bool)
    requires SafePipeline(running) && running != [] && WriterLast(running, writing)
    ensures var rest := running[1..];
            && SafePipeline(rest) && WriterLast(rest, writing)
            && UpgradeAlone(rest, reset, keptOpen) && HeadSpared(rest, informational, aborted)
            && Ids(rest) == Ids(running)[1..]
            && forall i :: 0 <= i < |rest| ==> Pipelinable(rest[i])
  {
    assert Ids(running[1..]) == Ids(running)[1..];
  }

  /** One more request is written, where busy lets it through. */
  lemma OneBehind(running: seq<Request>, request: Request, keptOpen: bool, reset: bool, keptOpen': bool, abortedBehind: bool)
    requires SafePipeline(running) && UpgradeAlone(running, false, keptOpen)
    requires running != [] ==> Pipelinable(request)
    requires (request.upgrade && !keptOpen' ==> reset) && (keptOpen ==> keptOpen')
    ensures var running' := running + [request];
            && SafePipeline(running') && WriterLast(running', Piecewise(request))
            && UpgradeAlone(running', reset, keptOpen') && HeadSpared(running', false, abortedBehind)
            && Ids(running') == Ids(running) + [request.id]
  {
    assert Ids(running + [request]) == Ids(running) + [request.id];
  }

  datatype Completion = Continue | SocketReset | AssertionFailed

  class Driver {
    const client: Client
    var socket: Socket?
    var pipelining: nat

    constructor (pipelining: nat)
      ensures Valid() && fresh(client) && socket == null && this.pipelining == pipelining
      ensures client.running == client.pending == client.settled == [] && client.dispatched == 0
    {
      client := new Client();
      socket := null;
      this.pipelining := pipelining;
    }

    /** The running section is what was written on the current socket and not answered yet, in the
        order it was written, and all of it but the head can be repeated. */
    ghost predicate Valid()
      reads this, client, socket
    {
      && client.Valid()
      && SafePipeline(client.running)
      && (socket == null ==> client.running == [])
      && (socket != null ==>
            && socket.answered <= |socket.written|
            && Ids(client.running) == socket.written[socket.answered..]
            && WriterLast(client.running, socket.writing)
            && UpgradeAlone(client.running, socket.reset, socket.keptOpen)
            && HeadSpared(client.running, socket.informational, socket.abortedBehind)
            && (socket.informational ==> socket.destroyed)
            && (forall r :: r in client.running ==> !r.completed && (r.aborted ==> socket.destroyed)))
      && (forall r :: r in client.pending ==> !r.completed)
    }

    method Dispatch(request: Request)
      requires Valid() && request.Fresh() && request.id == client.dispatched
      modifies client`queue, client`pending, client`dispatched
      ensures Valid()
      ensures client.pending == old(client.pending) + [request] && client.dispatched == old(client.dispatched) + 1
    {
      client.Dispatch(request);
    }

    method Connect()
      requires Valid() && socket == null
      modifies this`socket
      ensures Valid() && socket != null && fresh(socket)
      ensures !socket.writing && !socket.reset && !socket.blocking && !socket.validating && !socket.destroyed && !socket.closed
      ensures socket.written == [] && socket.answered == 0
    {
      socket := new Socket();
    }

    /** The connection's busy(request). */
    predicate Busy(request: Request)
      requires socket != null
      reads this, client, socket
    {
      || socket.writing || socket.reset || socket.blocking || socket.validating
      || (client.pendingIdx > client.runningIdx && !request.idempotent)
      || (client.pendingIdx > client.runningIdx && request.upgrade)
      || (client.pendingIdx > client.runningIdx && Fragile(request))
    }

    /** writeH1 and the step over the request: it now runs behind the others. The connection takes no further request
        after a HEAD or an upgrade, unless the reset option says otherwise; and in any case if this was the last one it
        may carry, or one whose method expects no body has one. */
    method Write(isHead: bool, reset: Option<bool>, last: bool, blocking: bool)
      requires Valid() && socket != null && client.pending != [] && client.pending[0].Live()
      requires !socket.destroyed && !Busy(client.pending[0])
      modifies socket, client`pendingIdx, client`running, client`pending
      ensures Valid() && !socket.destroyed
      ensures client.running == old(client.running) + [old(client.pending)[0]]
      ensures client.pending == old(client.pending)[1..]
      ensures socket.written == old(socket.written) + [old(client.pending)[0].id] && socket.answered == old(socket.answered)
      ensures socket.writing == Piecewise(old(client.pending)[0]) && socket.blocking == blocking && !socket.validating
      ensures socket.reset <==> last || (if reset.Some? then reset.value else isHead || old(client.pending)[0].upgrade)
      ensures socket.abortedBehind == old(socket.abortedBehind) && socket.closed == old(socket.closed)
    {
      hide Conserved, SafePipeline, WriterLast, UpgradeAlone, HeadSpared, Ids;
      var request := NextPending();
      ghost var keptOpen := socket.keptOpen;
      socket.Mark(request, isHead, reset, last, blocking);
      OneBehind(client.running, request, keptOpen, socket.reset, socket.keptOpen, socket.abortedBehind);
      client.Advance();
    }

    /** A pending request that turns out aborted, or is refused by writeH1, leaves the queue failed. */
    method FailPending()
      requires Valid() && client.pending != []
      modifies client`queue, client`running, client`pending, client`settled
      ensures Valid() && client.running == old(client.running)
      ensures client.pending == old(client.pending)[1..]
      ensures client.settled == old(client.settled) + [old(client.pending)[0].Failed()]
    {
      hide Conserved;
      client.FailPending();
    }

    /** What the write of the first pending request comes to: it runs, or a callback aborts it once it was written, or
        it leaves the queue failed. A consumer that aborts as soon as it is given its controller does both: it ends the
        connection, and its request does not run. */
    method Take(sending: Sending)
      requires Valid() && client.pending != [] && socket != null && !socket.destroyed
      requires client.pending[0].Live() && !Busy(client.pending[0])
      modifies socket, client`queue, client`pendingIdx, client`running, client`pending, client`settled
      ensures Valid()
      ensures client.running == old(client.running) + ChosenBy(old(client.pending)[0], sending.end)
      ensures client.settled == old(client.settled) + RefusedBy(old(client.pending)[0], sending.end)
      ensures client.pending == old(client.pending)[1..]
      ensures socket.destroyed <==> sending.end.Aborts? || (sending.end.Unwritten? && sending.abortsAtStart)
      ensures socket.destroyed ==> socket.informational
      ensures if sending.end.Unwritten? then !socket.writing && !socket.reset && !socket.blocking && !socket.validating else
                var request := old(client.pending)[0];
                && socket.writing == Piecewise(request) && socket.blocking == sending.blocking && !socket.validating
                && (socket.reset <==> sending.last || (if sending.reset.Some? then sending.reset.value else sending.isHead || request.upgrade))
    {
      hide Valid;
      if sending.end.Unwritten? {
        if sending.abortsAtStart {
          AbortAtStart();
        }
        FailPending();
      } else {
        ghost var run, request := client.running, client.pending[0];
        Write(sending.isHead, sending.reset, sending.last, sending.blocking);
        if sending.end.Aborts? {
          AbortLast();
          assert (run + [request])[|run| := request.Failed()] == run + [request.Failed()];
        }
      }
    }

    /** abort from inside onRequestStart: the socket is destroyed under what runs on it. */
    method AbortAtStart()
      requires Valid() && socket != null
      modifies socket`destroyed, socket`informational, socket`abortedBehind
      ensures Valid() && socket.destroyed
      ensures socket.informational == if old(socket.destroyed) then old(socket.informational) else true
      ensures socket.abortedBehind == (old(socket.abortedBehind) || (!old(socket.destroyed) && client.running != []))
    {
      hide Conserved;
      if !socket.destroyed {
        socket.abortedBehind := socket.abortedBehind || client.runningIdx < client.pendingIdx;
        socket.destroyed, socket.informational := true, true;
      }
    }

    /** abort from inside the write, once the request counts as running. */
    method AbortLast()
      requires Valid() && socket != null && client.running != [] && client.running[|client.running| - 1].Live()
      modifies socket`destroyed, socket`informational, socket`abortedBehind, client`queue, client`running, client`pending
      ensures Valid() && socket.destroyed && client.pending == old(client.pending)
      ensures socket.informational == if old(socket.destroyed) then old(socket.informational) else true
      ensures var run := old(client.running); var k := |run| - 1; client.running == run[k := run[k].Failed()]
    {
      hide Conserved;
      AbortAt(client.pendingIdx - 1);
    }

    /** Nothing more can be written: nothing waits; as many run as may, which is one at least; or the first request still
        waits for its answer, and there is no live socket, or the socket is busy with what was written before, or the
        request may not go behind another. */
    ghost predicate Halts()
      reads this, client, socket
    {
      || client.pending == []
      || (|client.running| >= 1 && |client.running| >= pipelining)
      || (!client.pending[0].aborted
          && (|| socket == null || socket.destroyed
              || socket.writing || socket.reset || socket.blocking || socket.validating
              || (client.running != []
                  && (!client.pending[0].idempotent || client.pending[0].upgrade
                      || (!client.pending[0].bodyEmpty && client.pending[0].body in {Stream, AsyncIterable, FormData})))))
    }

    /** One turn of _resume's loop: it stops, exactly if nothing more can be written, or takes the request at the front of
        pending: one that was aborted is dropped, and any other comes to what its write comes to. */
    method Turn(sending: Sending) returns (stop: bool, ghost write: Written)
      requires Valid()
      modifies socket, client`queue, client`pendingIdx, client`running, client`pending, client`settled
      ensures Valid() && (stop <==> old(Halts()))
      ensures stop ==> client.running == old(client.running) && client.pending == old(client.pending)
                       && client.settled == old(client.settled) && Halts() && Flags() == old(Flags())
      ensures !stop ==>
                var request := old(client.pending)[0];
                && write == (if request.aborted then Unwritten else sending.end)
                && client.running == old(client.running) + ChosenBy(request, write)
                && client.settled == old(client.settled) + RefusedBy(request, write)
                && client.pending == old(client.pending)[1..]
                && Flags() == (if request.aborted then old(Flags()) else After(old(Flags()), request, sending))
                && (request.aborted || (old(Flags()) == Unmarked() && (old(client.running) != [] ==> Pipelinable(request))))
    {
      hide Conserved, SafePipeline, WriterLast, UpgradeAlone, HeadSpared, Ids;
      if client.pendingIdx == |client.queue|
         || client.pendingIdx - client.runningIdx >= (if pipelining == 0 then 1 else pipelining) {
        return true, Unwritten;
      }
      var request := NextPending();
      if request.aborted {
        FailPending();
        return false, Unwritten;
      }
      if socket == null || socket.destroyed || Busy(request) {
        return true, Unwritten; // connecting, or waiting
      }
      Take(sending);
      return false, sending.end;
    }

    /** The marks of the current socket; none at all is like one that is destroyed. */
    ghost function Flags(): Marks
      reads this`socket, socket
    {
      if socket == null then Marks(false, false, false, false, true)
      else Marks(socket.writing, socket.reset, socket.blocking, socket.validating, socket.destroyed)
    }

    /** _resume, where the write of the k-th turn comes to sendings[k], or is a plain one if that is not given; and then
        compaction. It takes |writes| requests off the front of pending, until nothing more can be written. Those written
        run behind the others in the same order, and none of them was aborted before; the rest are failed. */
    method Resume(sendings: seq<Sending>) returns (ghost writes: seq<Written>)
      requires Valid()
      modifies socket, client`queue, client`runningIdx, client`pendingIdx
      modifies client`running, client`pending, client`settled
      ensures Valid() && Halts() && client.runningIdx <= 256
      ensures Resumed(old(client.running), old(client.pending), old(client.settled), writes)
      ensures InTurn(old(client.pending), sendings, writes, old(Flags()))
      ensures Flags() == MarksAfter(old(client.pending), sendings, |writes|, old(Flags()))
      ensures |client.running| > |old(client.running)| ==> |client.running| == 1 || |client.running| <= pipelining
    {
      hide Valid, Chosen, Refused, Halts, Flags, After;
      NoneChosen(client.running, client.pending, client.settled);
      writes := [];
      ghost var running, pending, settled, marks := client.running, client.pending, client.settled, Flags();
      var stop, turn := false, 0;
      while !stop
        invariant Valid() && (stop ==> Halts())
        invariant Resumed(running, pending, settled, writes) && InTurn(pending, sendings, writes, marks)
        invariant !stop ==> turn == |writes|
        invariant |client.running| > |running| ==> |client.running| == 1 || |client.running| <= pipelining
        invariant Flags() == MarksAfter(pending, sendings, |writes|, marks)
        decreases !stop, |pending| - |writes|
      {
        ghost var write;
        ghost var before := client.running;
        BelowCeiling();
        var sending := if turn < |sendings| then sendings[turn] else Plain();
        stop, write := Turn(sending);
        if !stop {
          Extend(running, pending, settled, writes, write);
          writes := writes + [write];
        }
        turn := turn + 1;
      }
      Compact();
    }

    lemma BelowCeiling()
      ensures !Halts() ==> client.pending != [] && (client.running == [] || |client.running| < pipelining)
    {
    }

    method NextPending() returns (request: Request)
      requires Valid() && client.pendingIdx < |client.queue|
      ensures client.pending != [] && request == client.pending[0] && (request.Live() <==> !request.aborted)
    {
      hide Conserved;
      client.InSection();
      request := client.queue[client.pendingIdx].value;
    }

    method Compact()
      requires Valid()
      modifies client`queue, client`runningIdx, client`pendingIdx
      ensures Valid() && client.runningIdx <= 256 && Halts() == old(Halts())
    {
      hide Conserved;
      client.Compact();
    }

    ghost predicate Resumed(running: seq<Request>, pending: seq<Request>, settled: seq<Request>, writes: seq<Written>)
      reads client
    {
      && |writes| <= |pending|
      && client.running == running + Chosen(pending[..|writes|], writes)
      && client.settled == settled + Refused(pending[..|writes|], writes)
      && client.pending == pending[|writes|..]
    }

    /** The body's writer is done. It may have marked the socket for reset on its way. */
    method BodyEnd(marks: bool)
      requires Valid() && socket != null
      modifies socket`writing, socket`reset
      ensures Valid() && !socket.writing && socket.reset == (old(socket.reset) || marks)
    {
      hide Conserved;
      socket.writing, socket.reset := false, socket.reset || marks;
    }

    /** The head of the pipeline has its response. */
    method AnswerHead()
      requires Valid() && socket != null && client.running != [] && client.running[0].Live()
      modifies socket`answered, client`queue, client`runningIdx, client`running, client`settled
      ensures Valid()
      ensures client.running == old(client.running)[1..]
      ensures client.settled == old(client.settled) + [old(client.running)[0].(completed := true)]
      ensures socket.answered == old(socket.answered) + 1
    {
      hide Conserved, SafePipeline, WriterLast, UpgradeAlone, HeadSpared, Ids;
      var request := Head();
      ConservedHead(client.running, client.pending, client.settled, client.dispatched, request.(completed := true));
      BehindHead(client.running, socket.writing, socket.reset, socket.keptOpen, socket.informational, socket.abortedBehind);
      client.ClearHead();
      client.settled := client.settled + [request.(completed := true)];
      socket.answered := socket.answered + 1;
    }

    /** Parser.onMessageComplete for a final response: the head of the pipeline is answered. On a destroyed socket that
        still happens if the response was the connection's last. A failed assertion is caught in execute and destroys
        the socket, so that its close fails the next request. It is not caught in finish, which the end, the error and
        the close of a socket call for such a last response; it then leaves their handler. */
    method MessageComplete(shouldKeepAlive: bool, inFinish: bool) returns (completion: Completion)
      requires Valid() && socket != null && client.running != [] && client.running[0].Live()
      requires socket.destroyed || inFinish ==> !shouldKeepAlive
      modifies socket, client`queue, client`runningIdx, client`running, client`settled
      ensures Valid()
      ensures client.running == old(client.running)[1..]
      ensures client.settled == old(client.settled) + [old(client.running)[0].(completed := true)]
      ensures socket.answered == old(socket.answered) + 1 && socket.written == old(socket.written)
      ensures completion.AssertionFailed? <==> old(socket.writing) && |old(client.running)| > 1
      ensures completion.AssertionFailed? ==>
                var last := client.running[|client.running| - 1];
                Piecewise(last) && !Fragile(last)
      ensures completion.AssertionFailed? && !inFinish ==> socket.destroyed && (!old(socket.destroyed) ==> !socket.informational)
      ensures (completion.AssertionFailed? && inFinish) || old(socket.destroyed) ==>
                socket.destroyed == old(socket.destroyed) && socket.informational == old(socket.informational)
      ensures socket.closed == old(socket.closed)
      ensures completion.SocketReset? ==> socket.destroyed && (!old(socket.destroyed) ==> socket.informational)
      ensures completion.Continue? <==> shouldKeepAlive && !old(socket.writing) && !(old(socket.reset) && |old(client.running)| == 1)
      ensures completion.Continue? ==> !socket.destroyed && !socket.writing && socket.reset == old(socket.reset)
    {
      hide Conserved, SafePipeline, Ids;
      BehindHead(client.running, socket.writing, socket.reset, socket.keptOpen, socket.informational, socket.abortedBehind);
      AnswerHead();
      if socket.writing {
        if client.pendingIdx - client.runningIdx != 0 {
          if !inFinish {
            Destroy(false);
          }
          return AssertionFailed;
        }
        Destroy(true);
        return SocketReset;
      }
      if !shouldKeepAlive || (socket.reset && client.pendingIdx - client.runningIdx == 0) {
        Destroy(true);
        return SocketReset;
      }
      return Continue;
    }

    method Head() returns (request: Request)
      requires Valid() && client.running != []
      ensures request == client.running[0]
    {
      client.InSection();
      request := client.queue[client.runningIdx].value;
    }

    /** util.destroy(socket, err): the close event follows later. No error of the connection's own that is informational
        meets a head which must not be repeated. */
    method Destroy(informational: bool)
      requires Valid() && socket != null
      requires informational && client.running != [] ==> client.running[0].idempotent
      modifies socket`destroyed, socket`informational
      ensures Valid() && socket.destroyed
      ensures socket.informational == if old(socket.destroyed) then old(socket.informational) else informational
    {
      hide Conserved;
      if !socket.destroyed {
        socket.destroyed, socket.informational := true, informational;
      }
    }

    /** A consumer aborts. A written request is failed where it stands and its socket destroyed; one that waits again
        after its socket closed is only failed where it stands. */
    method Abort(id: nat)
      requires Valid()
      modifies (if socket == null then {} else {socket})`destroyed
      modifies (if socket == null then {} else {socket})`informational
      modifies (if socket == null then {} else {socket})`abortedBehind
      modifies client`queue, client`running, client`pending
      ensures Valid() && client.settled == old(client.settled)
      ensures var run, k := old(client.running), Position(old(client.running), id);
              && client.running == (if k < |run| && run[k].Live() then run[k := run[k].Failed()] else run)
              && (k < |run| ==>
                    && socket != null && socket.destroyed
                    && socket.informational == if old(socket.destroyed) then old(socket.informational) else true)
      ensures var k, rest, j := Position(old(client.running), id), old(client.pending), Position(old(client.pending), id);
              client.pending == if k == |old(client.running)| && j < |rest| && rest[j].Live() then rest[j := rest[j].Failed()] else rest
    {
      hide Conserved;
      var index := client.IndexOf(id);
      client.InSection();
      if index == |client.queue| || !client.queue[index].value.Live() {
        return;
      }
      if index < client.pendingIdx {
        AbortAt(index);
      } else {
        client.Update(index, client.queue[index].value.Failed());
      }
    }

    method AbortAt(index: nat)
      requires Valid() && socket != null && client.runningIdx <= index < client.pendingIdx
      requires client.running[index - client.runningIdx].Live()
      modifies socket`destroyed, socket`informational, socket`abortedBehind, client`queue, client`running, client`pending
      ensures Valid() && socket.destroyed && client.pending == old(client.pending)
      ensures socket.informational == if old(socket.destroyed) then old(socket.informational) else true
      ensures var run, k := old(client.running), index - client.runningIdx; client.running == run[k := run[k].Failed()]
      ensures socket.abortedBehind == (old(socket.abortedBehind) || (!old(socket.destroyed) && index > client.runningIdx))
    {
      hide Conserved, SafePipeline, WriterLast, Ids;
      client.InSection();
      if !socket.destroyed {
        socket.abortedBehind := socket.abortedBehind || index > client.runningIdx;
        socket.destroyed, socket.informational := true, true;
      }
      FailedInPlace(client.running, index - client.runningIdx, socket.writing);
      client.Update(index, client.queue[index].value.Failed());
    }

    /** Parser.onHeadersComplete for a response that is no upgrade: it may be the connection's last one, and a final one
        lifts the block on what follows. */
    method ResponseStarts(last: bool, unblocks: bool)
      requires Valid() && socket != null
      modifies socket`reset, socket`blocking
      ensures Valid() && socket.reset == (old(socket.reset) || last) && socket.blocking == (old(socket.blocking) && !unblocks)
    {
      hide Conserved;
      socket.reset, socket.blocking := socket.reset || last, socket.blocking && !unblocks;
    }

    /** An upgrade: the connection is the consumer's from now on, and the client has none. The parser asserts that
        nothing else was written on it; where that fails the socket is destroyed instead. */
    method Upgrade(accepted: bool) returns (upgraded: bool)
      requires Valid() && socket != null && !socket.destroyed && client.running != [] && client.running[0].upgrade
      modifies this`socket, socket, client`queue, client`runningIdx, client`running, client`settled
      ensures Valid() && client.pending == old(client.pending)
      ensures upgraded <==> |old(client.running)| == 1
      ensures !upgraded ==> socket == old(socket) && socket.destroyed && !socket.informational && socket.keptOpen
                            && client.running == old(client.running) && client.settled == old(client.settled)
      ensures upgraded ==>
                var r := old(client.running)[0];
                && socket == null && client.running == []
                && client.settled == old(client.settled) + [if accepted then r.(completed := true) else r.Failed()]
    {
      hide Conserved;
      if client.pendingIdx - client.runningIdx != 1 {
        Destroy(false);
        return false;
      }
      var head := Head();
      var final := if accepted then head.(completed := true) else head.Failed();
      assert client.running == [head] && client.running[1..] == [];
      ConservedHead(client.running, client.pending, client.settled, client.dispatched, final);
      socket := null;
      client.ClearHead();
      client.settled := client.settled + [final];
      return true;
    }

    /** An error of the socket, or of connecting one, reaches onError. */
    method RaiseError(recoverable: bool)
      requires Valid()
      modifies client`queue, client`pending, client`settled
      ensures Valid()
      ensures if client.running == [] && !recoverable
              then client.pending == [] && client.settled == old(client.settled) + AllFailed(old(client.pending))
              else client.pending == old(client.pending) && client.settled == old(client.settled)
    {
      hide Conserved;
      client.OnError(recoverable);
    }

    /** onHttpSocketClose. Unless the error is informational, exactly the head of the pipeline is failed.
        Everything else that was unanswered is pending again, in order, ahead of the rest. */
    method SocketClose()
      requires Valid() && socket != null
      modifies this`socket, client`queue, client`runningIdx, client`pendingIdx
      modifies client`running, client`pending, client`settled
      ensures Valid() && socket == null && client.running == []
      ensures old(client.running) != [] && !old(socket.informational) ==>
                && client.settled == old(client.settled) + [old(client.running)[0].Failed()]
                && client.pending == old(client.running)[1..] + old(client.pending)
      ensures old(client.running) == [] || old(socket.informational) ==>
                client.settled == old(client.settled) && client.pending == old(client.running) + old(client.pending)
    {
      var informational := socket.informational;
      socket := null;
      if client.pendingIdx - client.runningIdx > 0 && !informational {
        client.InSection();
        var request := client.queue[client.runningIdx].value;
        assert request == client.running[0];
        ConservedHead(client.running, client.pending, client.settled, client.dispatched, request.Failed());
        client.ClearHead();
        client.settled := client.settled + [request.Failed()];
      }
      client.ReturnRunning();
    }

    /** The close event. If nothing was wrong with the socket and its last response was to end with it, the parser ends
        that first. An assertion that fails there leaves the handler before the socket is given up: what runs then
        stays, and no further event of the socket will come. */
    method Close(finishes: bool) returns (handled: bool)
      requires Valid() && socket != null && !socket.closed
      modifies this`socket, socket, client`queue, client`runningIdx, client`pendingIdx
      modifies client`running, client`pending, client`settled
      ensures Valid() && (socket == null || socket == old(socket))
      ensures handled <==> !(Finishes(finishes, old(socket.destroyed), old(client.running))
                             && old(socket.writing) && |old(client.running)| > 1)
      ensures handled ==> socket == null && client.running == []
      ensures handled && !Finishes(finishes, old(socket.destroyed), old(client.running)) ==>
                var run, spared := old(client.running), old(socket.informational);
                && client.settled == old(client.settled) + (if run == [] || spared then [] else [run[0].Failed()])
                && client.pending == (if run == [] || spared then run else run[1..]) + old(client.pending)
      ensures Finishes(finishes, old(socket.destroyed), old(client.running)) ==>
                var run := old(client.running);
                var ended := old(client.settled) + [run[0].(completed := true)];
                if !handled then
                  socket != null && socket.destroyed && socket.closed && client.running == run[1..]
                  && client.settled == ended && client.pending == old(client.pending)
                else
                  && client.settled == ended + (if |run| == 1 then [] else [run[1].Failed()])
                  && client.pending == (if |run| == 1 then [] else run[2..]) + old(client.pending)
    {
      hide Conserved, SafePipeline, WriterLast, UpgradeAlone, HeadSpared, Ids;
      var finish := finishes && !socket.destroyed;
      client.InSection();
      socket.closed, socket.destroyed := true, true;
      if finish && client.runningIdx < client.pendingIdx {
        assert client.running[0] in client.running;
        var completion := MessageComplete(false, true);
        if completion.AssertionFailed? {
          return false;
        }
      }
      SocketClose();
      return true;
    }

    method Handle(event: Event)
      requires Valid() && !event.Connects?
      modifies this, client, socket
      ensures Valid() && (socket == old(socket) || socket == null)
      ensures client.dispatched == old(client.dispatched) + if event.Dispatches? then 1 else 0
      ensures event.Dispatches? ==> |client.pending| == |old(client.pending)| + 1
      ensures event.Resumes? ==> Halts()
      ensures event.Errors? && !event.recoverable && old(client.running) == [] ==> client.pending == []
      ensures event.Closes? && socket != null ==> socket.closed
    {
      hide Conserved, SafePipeline, WriterLast, Ids, Halts;
      client.InSection();
      match event {
        case Dispatches(idempotent, upgrade, body, bodyEmpty) =>
          Dispatch(NewRequest(client.dispatched, idempotent, upgrade, body, bodyEmpty));
        case Resumes(sendings) =>
          var _ := Resume(sendings);
        case Errors(recoverable) =>
          RaiseError(recoverable);
        case Aborts(id) =>
          Abort(id);
        case Connects =>
        case _ =>
          if socket != null {
            HandleSocket(event);
          }
      }
    }

    /** The events of the connected socket. */
    method HandleSocket(event: Event)
      requires Valid() && socket != null
      modifies this`socket, socket, client`queue, client`runningIdx, client`pendingIdx
      modifies client`running, client`pending, client`settled
      ensures Valid() && (socket == old(socket) || socket == null)
      ensures event.Closes? && socket != null ==> socket.closed
      ensures event.Validates? ==> socket != null && socket.validating == event.waiting
      ensures event.BodyEnds? ==> socket != null && !socket.writing
      ensures event.Starts? ==> socket != null && (event.last ==> socket.reset) && (event.unblocks ==> !socket.blocking)
      ensures event.Destroys? && (event.idle ==> old(client.running) == []) ==> socket != null && socket.destroyed
    {
      hide Conserved, SafePipeline, WriterLast, Ids;
      client.InSection();
      match event {
        case Validates(waiting) =>
          socket.validating := waiting;
        case BodyEnds(marks) =>
          BodyEnd(marks);
        case Starts(last, unblocks) =>
          ResponseStarts(last, unblocks);
        case Upgrades(accepted) =>
          if !socket.destroyed && client.runningIdx < client.pendingIdx && client.queue[client.runningIdx].value.upgrade {
            var _ := Upgrade(accepted);
          }
        case Completes(shouldKeepAlive, inFinish) =>
          if client.runningIdx < client.pendingIdx && client.queue[client.runningIdx].value.Live()
             && (socket.destroyed || inFinish ==> !shouldKeepAlive) {
            var _ := MessageComplete(shouldKeepAlive, inFinish);
          }
        case Destroys(idle) =>
          if idle ==> client.runningIdx == client.pendingIdx {
            Destroy(idle);
          }
        case Closes(finishes) =>
          if !socket.closed {
            var _ := Close(finishes);
          }
        case _ =>
      }
    }
  }

  /** Those of `s` whose caller still waits; the resume loop drops the others. */
  function Waiting(s: seq<Request>): (t: seq<Request>)
    ensures forall r :: r in t <==> r in s && r.Live()
  {
    if s == [] then [] else (if s[0].Live() then [s[0]] else []) + Waiting(s[1..])
  }

  /** What a closed socket sends again. */
  function Replayed(running: seq<Request>, informational: bool): seq<Request> {
    Waiting(if running == [] || informational then running else running[1..])
  }

  /** Of a safe pipeline a closed socket repeats only idempotent requests, with one exception: an informational error
      repeats the head too, whatever it is, if its caller still waits. That comes about only if a request behind it was
      aborted. */
  lemma ReplayIsIdempotent(running: seq<Request>, informational: bool, abortedBehind: bool)
    requires SafePipeline(running) && HeadSpared(running, informational, abortedBehind)
    ensures (forall r :: r in Replayed(running, informational) ==> r.idempotent)
            <==> !(informational && running != [] && running[0].Live() && !running[0].idempotent)
    ensures !abortedBehind ==> forall r :: r in Replayed(running, informational) ==> r.idempotent
    ensures forall r :: r in Replayed(running, false) ==> Pipelinable(r)
  {
    assert running != [] && informational && running[0].Live() ==> running[0] in Replayed(running, informational);
  }

  /** A POST whose answer has begun, a GET pipelined behind it whose consumer aborts, and the close that follows: the
      POST, whose caller still waits, is written a second time. */
  method RepeatedPost() returns (driver: Driver, ghost closed: Socket)
    ensures driver.socket != null && driver.socket != closed
    ensures closed.written == [0, 1] && driver.socket.written == [0]
    ensures driver.client.running == [NewRequest(0, false, false, Buffer, false)] && closed.answered == 0
  {
    hide Conserved, SafePipeline, WriterLast, UpgradeAlone, HeadSpared, Ids;
    driver := PostThenGet();
    closed := driver.socket;
    driver.Abort(1);
    driver.SocketClose();
    driver.Connect();
    driver.Write(false, None, false, true);
  }

  method PostThenGet() returns (driver: Driver)
    ensures driver.Valid() && driver.client.pending == [] && driver.pipelining == 2
    ensures driver.client.running == [NewRequest(0, false, false, Buffer, false), NewRequest(1, true, false, NoBody, true)]
    ensures driver.socket != null && driver.socket.written == [0, 1] && driver.socket.answered == 0
    ensures fresh(driver) && fresh(driver.client) && fresh(driver.socket) && !driver.socket.destroyed
  {
    hide Conserved, SafePipeline, WriterLast, UpgradeAlone, HeadSpared, Ids;
    driver := FirstBegun(NewRequest(0, false, false, Buffer, false), NewRequest(1, true, false, NoBody, true));
    driver.Write(false, None, false, true);
  }

  /** The answer to the first of two requests has begun, which lifts the block on the second. */
  method FirstBegun(first: Request, second: Request) returns (driver: Driver)
    requires first.Fresh() && first.id == 0 && !first.upgrade && !Piecewise(first) && second.Fresh() && second.id == 1
    ensures driver.Valid() && driver.pipelining == 2 && driver.client.running == [first] && driver.client.pending == [second]
    ensures driver.socket != null && driver.socket.written == [0] && driver.socket.answered == 0
    ensures var s := driver.socket; !s.writing && !s.reset && !s.blocking && !s.validating && !s.destroyed && !s.closed
    ensures fresh(driver) && fresh(driver.client) && fresh(driver.socket)
  {
    hide Conserved, SafePipeline, WriterLast, UpgradeAlone, HeadSpared, Ids;
    driver := new Driver(2);
    driver.Dispatch(first);
    driver.Dispatch(second);
    driver.Connect();
    driver.Write(false, None, false, true);
    driver.ResponseStarts(false, true);
  }

  /** Two GETs on a connection that may carry two: the second waits until the response to the first has begun. */
  method TwoGets() returns (driver: Driver, ghost before: seq<Request>)
    ensures before == [NewRequest(0, true, false, NoBody, true)] && driver.client.pending == []
    ensures driver.client.running == [NewRequest(0, true, false, NoBody, true), NewRequest(1, true, false, NoBody, true)]
  {
    hide Conserved, SafePipeline, WriterLast, UpgradeAlone, HeadSpared, Ids, Driver.Valid, Chosen, Refused, InTurn, After, MarksAfter;
    driver := new Driver(2);
    ghost var first, second := NewRequest(0, true, false, NoBody, true), NewRequest(1, true, false, NoBody, true);
    driver.Dispatch(NewRequest(0, true, false, NoBody, true));
    driver.Dispatch(NewRequest(1, true, false, NoBody, true));
    driver.Connect();
    assert driver.client.pending == [first, second];
    ghost var writes := driver.Resume([]);
    OnePlain([], [first, second], driver.client.running, writes);
    before := driver.client.running;
    assert driver.client.pending == [second];
    driver.ResponseStarts(false, true);
    writes := driver.Resume([]);
    assert driver.client.pending == [second][|writes|..];
    OnePlain([first], [second], driver.client.running, writes);
  }

  /** A plain write is one that nothing goes behind before its response starts. */
  lemma {:induction false} OnePlain(running: seq<Request>, pending: seq<Request>, running': seq<Request>, writes: seq<Written>)
    requires pending != [] && forall r :: r in pending ==> !r.aborted && !r.upgrade && r.body.NoBody?
    requires InTurn(pending, [], writes, Unmarked()) && running' == running + Chosen(pending[..|writes|], writes)
    ensures running' == running + pending[..|writes|] && |writes| <= 1
    ensures MarksAfter(pending, [], |writes|, Unmarked()) == Unmarked().(blocking := |writes| > 0)
  {
    assert MarksAfter(pending, [], 1, Unmarked()) == Unmarked().(blocking := true);
    if |writes| == 1 {
      assert pending[..1] == [pending[0]] && pending[..1][..0] == [] && writes[..0] == [] && writes == [Runs];
      assert Chosen(pending[..1], writes) == Chosen([], []) + [pending[0]];
    }
  }

  /** The reset option keeps the connection open behind an upgrade, and the blocking option lets others pass; a request
      is pipelined there, and the answer to the upgrade fails the parser's assertion. */
  method PipelinedUpgrade() returns (driver: Driver, upgraded: bool)
    ensures !upgraded && driver.socket != null && driver.socket.destroyed && |driver.client.running| == 2
  {
    driver := new Driver(2);
    driver.Dispatch(NewRequest(0, true, true, NoBody, true));
    driver.Dispatch(NewRequest(1, true, false, NoBody, true));
    driver.Connect();
    driver.Write(false, Some(false), false, false);
    driver.Write(false, None, false, false);
    upgraded := driver.Upgrade(true);
  }

  /** The assertion in onMessageComplete that a request still being written is alone cannot fail for
      the bodies that busy() keeps out of a pipeline. */
  lemma FragileWriterIsAlone(running: seq<Request>)
    requires SafePipeline(running) && running != []
    requires !running[|running| - 1].bodyEmpty && running[|running| - 1].body in {Stream, AsyncIterable, FormData}
    ensures |running| == 1
  {
  }

  /** It does fail for a Blob: busy() lets an idempotent request with one go behind another, and the
      answer to the first then finds the second still being written. */
  method PipelinedBlob() returns (completion: Completion)
    ensures completion == AssertionFailed
  {
    hide Conserved, SafePipeline, WriterLast, UpgradeAlone, HeadSpared, Ids;
    var driver := GetThenBlob();
    completion := driver.MessageComplete(true, false);
  }

  /** The same where the first answer ends with the socket's close: the exception leaves the close handler, and the
      second request is left without an answer, on a socket that will not close again. */
  method LeftBehind() returns (driver: Driver)
    ensures driver.Valid() && driver.socket != null && driver.socket.closed
    ensures driver.client.running == [NewRequest(1, true, false, Blob, false)]
  {
    hide Conserved, SafePipeline, WriterLast, UpgradeAlone, HeadSpared, Ids;
    driver := GetThenBlob();
    var _ := driver.Close(true);
  }

  method GetThenBlob() returns (driver: Driver)
    ensures driver.Valid() && driver.client.pending == [] && driver.socket != null && driver.socket.writing
    ensures driver.client.running == [NewRequest(0, true, false, NoBody, true), NewRequest(1, true, false, Blob, false)]
    ensures fresh(driver) && fresh(driver.client) && fresh(driver.socket) && !driver.socket.destroyed && !driver.socket.closed
  {
    hide Conserved, SafePipeline, WriterLast, UpgradeAlone, HeadSpared, Ids;
    driver := FirstBegun(NewRequest(0, true, false, NoBody, true), NewRequest(1, true, false, Blob, false));
    driver.Write(false, None, false, true);
  }

  /** The close of this socket ends a response first. */
  predicate Finishes(finishes: bool, destroyed: bool, running: seq<Request>) {
    finishes && !destroyed && running != []
  }

  datatype Event =
    | Dispatches(idempotent: bool, upgrade: bool, body: Body, bodyEmpty: bool)
    | Connects
    | Resumes(sendings: seq<Sending>)
    | Validates(waiting: bool)
    | BodyEnds(marks: bool)
    | Starts(last: bool, unblocks: bool)
    | Upgrades(accepted: bool)
    | Completes(shouldKeepAlive: bool, inFinish: bool)
    | Destroys(idle: bool)
    | Errors(recoverable: bool)
    | Aborts(id: nat)
    | Closes(finishes: bool)

  /** How many of the events dispatch a request. */
  ghost function Dispatching(events: seq<Event>): nat {
    if events == [] then 0
    else Dispatching(events[..|events| - 1]) + if events[|events| - 1].Dispatches? then 1 else 0
  }

  lemma OneDispatching(events: seq<Event>, i: nat)
    requires i < |events|
    ensures Dispatching(events[..i + 1]) == Dispatching(events[..i]) + if events[i].Dispatches? then 1 else 0
  {
    assert events[..i + 1][..i] == events[..i];
  }

  /** Any run of a client that is not destroyed: the pipeline is always safe to repeat but for its head, no request is
      lost or doubled, and what runs is what the socket still owes an answer to. A closed socket repeats a request that
      is not idempotent only if a consumer aborted behind it. */
  method Run(pipelining: nat, events: seq<Event>) returns (driver: Driver)
    ensures driver.Valid()
    ensures SafePipeline(driver.client.running)
    ensures driver.socket != null && !driver.socket.abortedBehind ==>
              forall r :: r in Replayed(driver.client.running, driver.socket.informational) ==> r.idempotent
    ensures |driver.client.running| + |driver.client.pending| + |driver.client.settled|
            == driver.client.dispatched == Dispatching(events)
  {
    driver := new Driver(pipelining);
    assert Dispatching(events[..0]) == 0;
    for i := 0 to |events|
      invariant driver.Valid()
      invariant fresh(driver) && fresh(driver.client) && (driver.socket != null ==> fresh(driver.socket))
      invariant driver.client.dispatched == Dispatching(events[..i])
    {
      OneDispatching(events, i);
      if events[i].Connects? {
        if driver.socket == null {
          driver.Connect();
        }
      } else {
        driver.Handle(events[i]);
      }
    }
    assert events[..|events|] == events;
    if driver.socket != null {
      ReplayIsIdempotent(driver.client.running, driver.socket.informational, driver.socket.abortedBehind);
    }
  }

  /** What becomes of one write of a resume. */
  datatype Written = Runs | Aborts | Unwritten

  /** A write: its flags, and what it comes to. One that is refused may end the connection with it. */
  datatype Sending = Sending(isHead: bool, reset: Option<bool>, last: bool, blocking: bool, end: Written, abortsAtStart: bool)

  function Plain(): Sending {
    Sending(false, None, false, true, Runs, false)
  }

  /** What a socket is marked with. */
  datatype Marks = Marks(writing: bool, reset: bool, blocking: bool, validating: bool, destroyed: bool)

  ghost function Unmarked(): Marks {
    Marks(false, false, false, false, false)
  }

  /** A write leaves its own marks, and an abort in it destroys. */
  ghost function After(marks: Marks, r: Request, s: Sending): Marks {
    if s.end.Unwritten? then marks.(destroyed := marks.destroyed || s.abortsAtStart)
    else Marks(!r.bodyEmpty && r.body !in {NoBody, Buffer},
               s.last || (if s.reset.Some? then s.reset.value else s.isHead || r.upgrade),
               s.blocking, false, s.end.Aborts?)
  }

  /** The marks once the first `n` of `pending` have had their turn. */
  ghost function MarksAfter(pending: seq<Request>, sendings: seq<Sending>, n: nat, marks: Marks): Marks
    requires n <= |pending|
  {
    if n == 0 then marks
    else if pending[n - 1].aborted then MarksAfter(pending, sendings, n - 1, marks)
    else After(MarksAfter(pending, sendings, n - 1, marks), pending[n - 1], if n <= |sendings| then sendings[n - 1] else Plain())
  }

  /** Each write came to what it was to come to, on a socket that bore no mark of the ones before. */
  ghost predicate InTurn(pending: seq<Request>, sendings: seq<Sending>, writes: seq<Written>, marks: Marks) {
    && |writes| <= |pending|
    && (forall i :: 0 <= i < |writes| ==>
          writes[i] == if pending[i].aborted then Unwritten else if i < |sendings| then sendings[i].end else Runs)
    && (forall i :: 0 <= i < |writes| && !pending[i].aborted ==> MarksAfter(pending, sendings, i, marks) == Unmarked())
  }

  function ChosenBy(r: Request, write: Written): seq<Request> {
    match write
    case Runs => [r]
    case Aborts => [r.Failed()]
    case Unwritten => []
  }

  function RefusedBy(r: Request, write: Written): seq<Request> {
    if write.Unwritten? then [r.Failed()] else []
  }

  function Chosen(s: seq<Request>, writes: seq<Written>): seq<Request>
    requires |s| == |writes|
  {
    if s == [] then [] else Chosen(s[..|s| - 1], writes[..|s| - 1]) + ChosenBy(s[|s| - 1], writes[|s| - 1])
  }

  function Refused(s: seq<Request>, writes: seq<Written>): seq<Request>
    requires |s| == |writes|
  {
    if s == [] then [] else Refused(s[..|s| - 1], writes[..|s| - 1]) + RefusedBy(s[|s| - 1], writes[|s| - 1])
  }

  lemma NoneChosen(running: seq<Request>, pending: seq<Request>, settled: seq<Request>)
    ensures running + Chosen(pending[..0], []) == running && settled + Refused(pending[..0], []) == settled
  {
  }

  lemma {:induction false} Extend(running: seq<Request>, pending: seq<Request>, settled: seq<Request>, writes: seq<Written>, next: Written)
    requires |writes| < |pending|
    ensures var k := |writes|; var writes' := writes + [next];
            && running + Chosen(pending[..|writes'|], writes') == running + Chosen(pending[..k], writes) + ChosenBy(pending[k], next)
            && settled + Refused(pending[..|writes'|], writes') == settled + Refused(pending[..k], writes) + RefusedBy(pending[k], next)
            && pending[k..][1..] == pending[|writes'|..]
  {
    assert pending[..|writes| + 1][..|writes|] == pending[..|writes|];
    assert (writes + [next])[..|writes|] == writes;
  }
}
