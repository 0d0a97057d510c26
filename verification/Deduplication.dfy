/** lib/handler/deduplication-handler.js: one response, passed on to any number of waiting handlers, each of
which may pause, resume or abort on its own account, also from inside the callbacks it is given.

A consumer's callback acts on its own controller only, and drives neither the primary request nor the
other handlers. What it throws when it is handed the start or data of the response is ignored, as in the
original; what it throws as it is attached, or at the end, is not. */
module Deduplication {
  type Byte = bv8
  type Chunk = seq<Byte>

  function Total(chunks: seq<Chunk>): nat {
    if chunks == [] then 0 else |chunks[0]| + Total(chunks[1..])
  }

  lemma {:induction false} TotalAppend(chunks: seq<Chunk>, chunk: Chunk)
    ensures Total(chunks + [chunk]) == Total(chunks) + |chunk|
  {
    if chunks == [] {
      assert chunks + [chunk] == [chunk];
    } else {
      assert (chunks + [chunk])[1..] == chunks[1..] + [chunk];
      TotalAppend(chunks[1..], chunk);
    }
  }

  datatype ControllerCall = CallPause | CallResume | CallAbort

  class WaitingHandler {
    const maxBufferSize: nat
    var bufferedChunks: seq<Chunk>
    var bufferedBytes: nat
    var pendingTrailers: bool   // trailers are kept for a resume
    var done: bool
    var paused: bool
    var aborted: bool

    // History: the chunks of the primary's response so far, those handed to the consumer, its terminal events, whether
    // it aborted when it was over, whether it threw when it was handed the end, and whether it threw as it was attached;
    // and whether it was ever handed data or the end while it paused or was over.
    ghost var expected: seq<Chunk>
    ghost var delivered: seq<Chunk>
    ghost var ends: nat
    ghost var errors: nat
    ghost var lateAbort: bool
    ghost var threw: bool
    ghost var refused: bool
    ghost var disturbed: bool

    constructor (maxBufferSize: nat)
      ensures Valid() && Settled(false) && !done && !aborted && !pendingTrailers && !paused
      ensures this.maxBufferSize == maxBufferSize && expected == delivered == [] && ends == 0 && !threw && !lateAbort && !refused
    {
      this.maxBufferSize := maxBufferSize;
      bufferedChunks, bufferedBytes, pendingTrailers, done, paused, aborted := [], 0, false, false, false, false;
      expected, delivered, ends, errors, lateAbort, threw, refused, disturbed := [], [], 0, 0, false, false, false, false;
    }

    /** Until it failed, the consumer has the beginning of the response, and the buffer has the rest. */
    ghost predicate Valid()
      reads this
    {
      && bufferedBytes == Total(bufferedChunks) <= maxBufferSize
      && (if done && ends == 0 then delivered <= expected && bufferedChunks == []
          else delivered + bufferedChunks == expected)
      && (aborted ==> done)
      && (ends > 0 ==> done && bufferedChunks == [])
      && (done ==> !pendingTrailers)
      && ends + errors == Terminals() && !disturbed
      && (lateAbort ==> aborted) && (threw ==> ends == 1) && (refused ==> done && ends == 0)
      && ends <= 1
    }

    /** How many terminal events the consumer hears: one when it is over, an error more if it threw at its end, and one
        more if it aborts after that; none for the first of these if it threw as it was attached. */
    ghost function Terminals(): nat
      reads `done, `refused, `threw, `lateAbort
    {
      (if done && !refused then 1 else 0) + (if threw then 1 else 0) + (if lateAbort then 1 else 0)
    }

    /** Before any data there is nothing to buffer. */
    lemma Unhanded()
      requires Valid() && !done && expected == []
      ensures bufferedChunks == []
    {
    }

    /** Between events only a pausing consumer has anything waiting for it: chunks, or an end it is owed. */
    ghost predicate Settled(owed: bool)
      reads this
    {
      !done && !paused ==> bufferedChunks == [] && !owed
    }

    method Pause()
      modifies this`paused
      ensures paused == (!aborted || old(paused))
    {
      if !aborted {
        paused := true;
      }
    }

    method Abort()
      requires Valid()
      modifies this
      ensures Valid() && done && aborted
      ensures expected == old(expected) && delivered == old(delivered) && ends == old(ends)
      ensures old(!done && !lateAbort) ==> !lateAbort
      ensures bufferedChunks == [] && pendingTrailers == false
    {
      if aborted {
        return;
      }
      lateAbort := lateAbort || done;
      aborted := true;
      done := true;
      pendingTrailers := false;
      assert delivered <= expected;
      bufferedChunks, bufferedBytes := [], 0;
      errors := errors + 1;
    }

    /** The controller's resume, apart from the pruning of the handler's list. */
    method Resume(completed: bool)
      requires Valid() && (pendingTrailers ==> completed)
      modifies this
      ensures Valid() && expected == old(expected) && |bufferedChunks| <= |old(bufferedChunks)| && ends >= old(ends)
      ensures (pendingTrailers ==> old(pendingTrailers)) && (old(done) ==> done) && (old(aborted) ==> aborted)
      ensures !done && !paused ==> bufferedChunks == [] && !pendingTrailers && !old(pendingTrailers)
      ensures ends > old(ends) ==> old(pendingTrailers)
      ensures old(pendingTrailers) && !done ==> pendingTrailers
      ensures done && !aborted ==> old(done) || ends == 1
      ensures old(bufferedChunks) == [] && !old(done) ==> !paused && (done <==> completed && old(pendingTrailers))
      ensures old(delivered) <= delivered && (old(done) || old(bufferedChunks) == [] ==> delivered == old(delivered))
      ensures !old(done) && old(bufferedChunks) != [] ==> |delivered| > |old(delivered)|
      ensures old(aborted) ==> unchanged(this)
      decreases |bufferedChunks|, 2
    {
      if aborted {
        return;
      }
      paused := false;
      Flush(completed);
      if completed && pendingTrailers && |bufferedChunks| == 0 && !paused && !aborted {
        var throws: bool := *;
        End(throws);
      }
    }

    /** #flushWaitingHandler */
    method Flush(completed: bool)
      requires Valid() && (pendingTrailers ==> completed)
      modifies this
      ensures Valid() && expected == old(expected) && |bufferedChunks| <= |old(bufferedChunks)| && ends >= old(ends)
      ensures (pendingTrailers ==> old(pendingTrailers)) && (old(done) ==> done) && (old(aborted) ==> aborted)
      ensures !done && !paused ==> bufferedChunks == []
      ensures ends > old(ends) ==> old(pendingTrailers)
      ensures old(pendingTrailers) && !done ==> pendingTrailers
      ensures done && !aborted ==> old(done) || ends == 1
      ensures old(paused) || old(done) || old(bufferedChunks) == [] ==> unchanged(this)
      ensures old(delivered) <= delivered
      ensures !old(paused) && !old(done) && old(bufferedChunks) != [] ==> |delivered| > |old(delivered)|
      decreases |bufferedChunks|, 1
    {
      while !done && !aborted && !paused && |bufferedChunks| > 0
        invariant Valid() && expected == old(expected) && |bufferedChunks| <= |old(bufferedChunks)| && ends >= old(ends)
        invariant (pendingTrailers ==> old(pendingTrailers)) && (old(done) ==> done) && (old(aborted) ==> aborted)
        invariant ends > old(ends) ==> old(pendingTrailers)
        invariant old(pendingTrailers) && !done ==> pendingTrailers
        invariant done && !aborted ==> old(done) || ends == 1
        invariant old(paused) || old(done) || old(bufferedChunks) == [] ==> unchanged(this)
        invariant old(delivered) <= delivered && (unchanged(this) || |delivered| > |old(delivered)|)
        decreases |bufferedChunks|
      {
        var chunk := bufferedChunks[0];
        assert delivered + bufferedChunks == delivered + [chunk] + bufferedChunks[1..];
        bufferedChunks, bufferedBytes := bufferedChunks[1..], bufferedBytes - |chunk|;
        Hand(chunk);
        Consume(completed);
      }
    }

    /** onResponseData of the consumer is called. */
    method Hand(chunk: Chunk)
      modifies this`delivered, this`disturbed
      ensures delivered == old(delivered) + [chunk] && disturbed == (old(disturbed) || paused || done)
    {
      disturbed := disturbed || paused || done;
      delivered := delivered + [chunk];
    }

    /** A callback of the consumer: any number of calls on its own controller. */
    method Consume(completed: bool)
      requires Valid() && (pendingTrailers ==> completed)
      modifies this
      ensures Valid() && expected == old(expected) && |bufferedChunks| <= |old(bufferedChunks)| && ends >= old(ends)
      ensures (pendingTrailers ==> old(pendingTrailers)) && (old(done) ==> done) && (old(aborted) ==> aborted)
      ensures ends > old(ends) ==> old(pendingTrailers)
      ensures old(pendingTrailers) && !done ==> pendingTrailers
      ensures done && !aborted ==> old(done) || ends == 1
      ensures old(delivered) <= delivered && (old(bufferedChunks) == [] ==> delivered == old(delivered))
      decreases |bufferedChunks|, 3
    {
      var calls: nat := *;
      while calls > 0
        invariant Valid() && expected == old(expected) && |bufferedChunks| <= |old(bufferedChunks)| && ends >= old(ends)
        invariant (pendingTrailers ==> old(pendingTrailers)) && (old(done) ==> done) && (old(aborted) ==> aborted)
        invariant ends > old(ends) ==> old(pendingTrailers)
        invariant old(pendingTrailers) && !done ==> pendingTrailers
        invariant done && !aborted ==> old(done) || ends == 1
        invariant old(delivered) <= delivered && (old(bufferedChunks) == [] ==> delivered == old(delivered))
        decreases calls
      {
        var call: ControllerCall := *;
        match call {
          case CallPause => Pause();
          case CallResume => Resume(completed);
          case CallAbort => Abort();
        }
        calls := calls - 1;
      }
    }

    /** The callbacks it gets as it is attached. If one of them throws it is over, and hears nothing more. */
    method Start(responseStarted: bool) returns (throws: bool)
      requires Valid() && Settled(false) && !done && !pendingTrailers && expected == [] && ends == 0
      modifies this
      ensures Valid() && Settled(false) && !pendingTrailers && expected == [] && ends == 0
      ensures done <==> throws || aborted
    {
      Consume(false); // onRequestStart
      throws := *;
      if !throws && !aborted && responseStarted {
        Consume(false); // onResponseStart
        throws := *;
      }
      if throws {
        Refuse();
      }
    }

    /** #endWaitingHandler: the consumer hears the end; if it throws, it hears the error too. */
    method End(throws: bool)
      requires Valid() && !done && !paused && bufferedChunks == []
      modifies this`done, this`pendingTrailers, this`ends, this`errors, this`threw, this`disturbed
      ensures Valid() && done && ends == old(ends) + 1 && delivered == expected
      ensures threw == throws && errors == old(errors) + if throws then 1 else 0
    {
      disturbed := disturbed || paused || done;
      done := true;
      pendingTrailers := false;
      ends := ends + 1;
      if throws {
        threw := true;
        errors := errors + 1;
      }
    }

    method Refuse()
      requires Valid() && ends == 0 && bufferedChunks == []
      modifies this`done, this`pendingTrailers, this`refused
      ensures Valid() && done && !pendingTrailers
    {
      refused := refused || !done;
      done := true;
      pendingTrailers := false;
    }

    /** #errorWaitingHandler */
    method Error()
      requires Valid()
      modifies this
      ensures Valid() && done && expected == old(expected) && ends == old(ends) && delivered == old(delivered)
      ensures if old(done) then unchanged(this) else errors == old(errors) + 1
    {
      if done {
        return;
      }
      done := true;
      pendingTrailers := false;
      assert delivered <= expected;
      bufferedChunks, bufferedBytes := [], 0;
      errors := errors + 1;
    }

    /** #bufferWaitingChunk, for a chunk the primary just got. */
    method Buffer(chunk: Chunk)
      requires Valid() && !done && paused && !pendingTrailers
      modifies this
      ensures Valid() && expected == old(expected) + [chunk] && ends == old(ends)
      ensures delivered == old(delivered)
      ensures !done ==> paused && !pendingTrailers && bufferedChunks == old(bufferedChunks) + [chunk]
      ensures done <==> old(bufferedBytes) + |chunk| > maxBufferSize
      ensures done ==> aborted && errors == old(errors) + 1
    {
      TotalAppend(bufferedChunks, chunk);
      assert delivered + (bufferedChunks + [chunk]) == expected + [chunk];
      ghost var before := delivered;
      expected := expected + [chunk];
      if bufferedBytes + |chunk| > maxBufferSize {
        assert delivered <= expected;
        aborted, done := true, true;
        bufferedChunks, bufferedBytes := [], 0;
        errors := errors + 1;
      } else {
        bufferedChunks := bufferedChunks + [chunk];
        bufferedBytes := bufferedBytes + |chunk|;
      }
    }

    /** A turn of onResponseData's loop: a chunk goes to the consumer, or into the buffer of a paused one. */
    method Offer(chunk: Chunk)
      requires Valid() && Settled(false) && !pendingTrailers
      modifies this
      ensures Valid() && Settled(false) && !pendingTrailers && ends == old(ends)
      ensures old(done) ==> done && expected == old(expected)
      ensures !old(done) ==> expected == old(expected) + [chunk]
      // A pausing consumer is handed nothing: the chunk is buffered, unless that is too much for the buffer.
      ensures !old(done) && old(paused) ==>
                && delivered == old(delivered)
                && (done <==> old(bufferedBytes) + |chunk| > maxBufferSize)
                && (if done then aborted && errors == old(errors) + 1
                    else paused && bufferedChunks == old(bufferedChunks) + [chunk])
      ensures !old(done) && !old(paused) ==> delivered == old(delivered) + [chunk]
      ensures old(done) ==> delivered == old(delivered)
    {
      if done || aborted {
        return;
      }
      if paused {
        Buffer(chunk);
        return;
      }
      assert delivered + [] == delivered && delivered + [chunk] + [] == expected + [chunk];
      expected := expected + [chunk];
      Hand(chunk);
      Consume(false);
    }

    /** A turn of onResponseEnd's loop: the end for a consumer that is not pausing, or trailers kept for
        its resume. */
    method Finish(trailers: bool, throws: bool)
      requires Valid() && Settled(false) && !pendingTrailers
      modifies this
      ensures Valid() && Settled(true) && expected == old(expected)
      ensures old(done) ==> done && ends == old(ends)
      ensures !old(done) ==> if old(paused) then !done && paused && pendingTrailers == trailers && threw == old(threw)
                             else ends == 1 && threw == throws && aborted == old(aborted)
                                  && lateAbort == old(lateAbort) && refused == old(refused)
    {
      if done || aborted {
        return;
      }
      Flush(true);
      if done || aborted {
        return;
      }
      if paused {
        pendingTrailers := trailers;
        return;
      }
      End(throws);
    }
  }

  /** The consumer pauses, the response ends without trailers to keep, and the consumer resumes: it has everything, is
      not over, and nothing will ever tell it the end. */
  method LostEnd() returns (h: WaitingHandler)
    ensures h.Valid() && !h.done && !h.paused && h.delivered == h.expected && h.ends == 0
  {
    h := new WaitingHandler(5 * 1024 * 1024);
    h.Pause();
    h.Finish(false, false);
    assert h.delivered + h.bufferedChunks == [];
    h.Resume(true);
    assert h.delivered + [] == h.delivered;
  }

  /** The consumer throws when it hears the end, and hears an error after it. */
  method EndThenError() returns (h: WaitingHandler)
    ensures h.Valid() && h.ends == 1 && h.errors == 1 && !h.aborted
  {
    h := new WaitingHandler(5 * 1024 * 1024);
    h.Finish(true, true);
  }

  class DeduplicationHandler {
    const maxBufferSize: nat
    var waitingHandlers: seq<WaitingHandler>
    var aborted: bool
    var responseStarted: bool
    var responseDataStarted: bool
    var completed: bool
    /** onResponseEnd brought trailers. */
    var trailers: bool

    /** The chunks the primary received, and every handler that was ever attached. */
    ghost var received: seq<Chunk>
    ghost var attached: set<WaitingHandler>

    constructor (maxBufferSize: nat)
      ensures Valid() && attached == {} && received == [] && this.maxBufferSize == maxBufferSize
      ensures !completed && !aborted && !responseStarted && !responseDataStarted && !trailers
    {
      this.maxBufferSize := maxBufferSize;
      waitingHandlers, aborted, responseStarted, responseDataStarted, completed := [], false, false, false, false;
      trailers, received, attached := false, [], {};
    }

    /** Every attached handler that is not over is on the list and sees the primary's body: what it was
        handed and what is buffered for it, in this order, are the chunks the primary received. */
    ghost predicate Valid()
      reads this, attached
    {
      && (forall h :: h in waitingHandlers ==> h in attached)
      && (forall i, j :: 0 <= i < j < |waitingHandlers| ==> waitingHandlers[i] != waitingHandlers[j])
      && (forall h :: h in attached ==> Sees(h))
      && (!responseDataStarted ==> received == [])
    }

    ghost predicate Sees(h: WaitingHandler)
      reads this, h
    {
      && h.Valid() && h.Settled(completed && trailers) && h.maxBufferSize == maxBufferSize
      && (h.pendingTrailers ==> completed)
      && (!h.done ==> h in waitingHandlers && h.expected == received && h.pendingTrailers == (completed && trailers))
      && (h.ends > 0 ==> completed && h.expected == received)
    }

    /** addWaitingHandler: only before any data, so an attached handler misses nothing. */
    method AddWaitingHandler() returns (accepted: bool, h: WaitingHandler)
      requires Valid()
      modifies this`waitingHandlers, this`attached
      ensures Valid() && fresh(h)
      ensures accepted == !(completed || responseDataStarted)
      ensures attached == if accepted then old(attached) + {h} else old(attached)
      ensures waitingHandlers == old(waitingHandlers) + if accepted && !h.done then [h] else []
    {
      h := new WaitingHandler(maxBufferSize);
      if completed || responseDataStarted {
        return false, h;
      }
      var throws := h.Start(responseStarted);
      attached := attached + {h};
      if !throws && !h.aborted {
        waitingHandlers := waitingHandlers + [h];
      }
      accepted := true;
    }

    /** #pruneDoneWaitingHandlers */
    method Prune()
      requires Valid()
      modifies this`waitingHandlers
      ensures Valid()
      ensures forall h :: h in waitingHandlers <==> h in old(waitingHandlers) && !h.done
    {
      var kept: seq<WaitingHandler> := [];
      for i := 0 to |waitingHandlers|
        invariant forall h :: h in kept <==> h in waitingHandlers[..i] && !h.done
        invariant forall a, b :: 0 <= a < b < |kept| ==> kept[a] != kept[b]
      {
        if !waitingHandlers[i].done {
          kept := kept + [waitingHandlers[i]];
        }
      }
      waitingHandlers := kept;
    }

    /** onResponseStart: every consumer's callback runs; no chunk moves. */
    method OnResponseStart()
      requires Valid() && !completed && !responseDataStarted
      modifies this`responseStarted, this`waitingHandlers, attached
      ensures Valid() && responseStarted && forall h :: h in attached ==> h.delivered == old(h.delivered) && h.ends == old(h.ends)
      ensures forall h :: h in waitingHandlers <==> h in old(waitingHandlers) && !h.done
    {
      hide WaitingHandler.Valid;
      responseStarted := true;
      var handlers := waitingHandlers;
      for i := 0 to |handlers|
        invariant Valid() && waitingHandlers == handlers && responseStarted
        invariant forall h :: h in attached ==> h.delivered == old(h.delivered) && h.ends == old(h.ends)
      {
        assert Sees(handlers[i]);
        if !handlers[i].done {
          handlers[i].Unhanded();
          handlers[i].Consume(false);
        }
      }
      Prune();
    }

    /** Before the end of the response: nothing is owed to anyone. */
    ghost predicate Open(h: WaitingHandler)
      reads h
    {
      h.Valid() && h.Settled(false) && h.maxBufferSize == maxBufferSize && !h.pendingTrailers && h.ends == 0
    }

    /** onResponseData: every waiting handler is offered the chunk. */
    method OnResponseData(chunk: Chunk)
      requires Valid()
      modifies this`responseDataStarted, this`received, this`waitingHandlers, attached
      ensures Valid() && received == old(received) + (if aborted || completed then [] else [chunk])
      ensures !aborted && !completed ==>
                forall h :: h in attached ==> h.delivered == old(h.delivered) + if old(h.done || h.paused) then [] else [chunk]
      ensures aborted || completed ==> forall h :: h in attached ==> h.delivered == old(h.delivered)
      ensures !aborted && !completed ==> forall h :: h in waitingHandlers <==> h in old(waitingHandlers) && !h.done
    {
      hide WaitingHandler.Valid;
      if aborted || completed {
        assert received + [] == received;
        return;
      }
      assert forall h :: h in attached ==> Sees(h) && Open(h);
      responseDataStarted := true;
      received := received + [chunk];
      OfferAll(waitingHandlers, chunk, old(received));
      assert forall h :: h in attached && h in waitingHandlers ==> Offered(h, received);
      Prune();
    }

    /** The loop of onResponseData. */
    method OfferAll(handlers: seq<WaitingHandler>, chunk: Chunk, ghost received: seq<Chunk>)
      requires forall i, j :: 0 <= i < j < |handlers| ==> handlers[i] != handlers[j]
      requires forall h :: h in handlers ==> Offered(h, received)
      modifies handlers
      ensures forall h :: h in handlers ==> Offered(h, received + [chunk])
      ensures forall h :: h in handlers ==> h.delivered == old(h.delivered) + if old(h.done || h.paused) then [] else [chunk]
    {
      hide WaitingHandler.Valid;
      for i := 0 to |handlers|
        invariant forall j :: 0 <= j < i ==> Offered(handlers[j], received + [chunk])
        invariant forall j :: 0 <= j < i ==>
                    var h := handlers[j]; h.delivered == old(h.delivered) + if old(h.done || h.paused) then [] else [chunk]
        invariant forall j :: i <= j < |handlers| ==> unchanged(handlers[j])
      {
        assert forall j :: 0 <= j < |handlers| && j != i ==> handlers[j] != handlers[i];
        assert Offered(handlers[i], received);
        handlers[i].Offer(chunk);
      }
    }

    ghost predicate Offered(h: WaitingHandler, received: seq<Chunk>)
      reads h
    {
      Open(h) && (h.done || h.expected == received)
    }

    /** onResponseEnd: each consumer hears the end, or keeps the trailers for its resume. */
    method OnResponseEnd(trailers: bool)
      requires Valid()
      modifies this`completed, this`trailers, this`waitingHandlers, attached
      ensures Valid() && (aborted || completed)
      ensures !aborted && !old(completed) ==>
                forall h :: h in attached && !old(h.done) && !old(h.paused) ==> h.ends == 1 && h.delivered == received
      ensures !aborted && !old(completed) ==> forall h :: h in waitingHandlers <==> h in old(waitingHandlers) && !h.done
    {
      hide WaitingHandler.Valid;
      if aborted || completed {
        return;
      }
      assert forall h :: h in attached ==> Sees(h) && Due(h) && (h.done || h in waitingHandlers);
      completed := true;
      this.trailers := trailers;
      ghost var prompt := set h | h in attached && !h.done && !h.paused;
      FinishAll(waitingHandlers, trailers, received, prompt);
      assert forall h :: h in attached && h in waitingHandlers ==> Finished(h, trailers, received) && Sees(h);
      Prune();
    }

    /** The loop of onResponseEnd. */
    method FinishAll(handlers: seq<WaitingHandler>, trailers: bool, ghost received: seq<Chunk>, ghost prompt: set<WaitingHandler>)
      requires forall i, j :: 0 <= i < j < |handlers| ==> handlers[i] != handlers[j]
      requires forall h :: h in handlers ==> Open(h) && (h.done || h.expected == received)
      requires forall h :: h in handlers && h in prompt ==> !h.done && !h.paused
      modifies handlers
      ensures forall h :: h in handlers ==> Finished(h, trailers, received) && (h in prompt ==> h.ends == 1)
    {
      for i := 0 to |handlers|
        invariant forall j :: 0 <= j < i ==> Finished(handlers[j], trailers, received) && (handlers[j] in prompt ==> handlers[j].ends == 1)
        invariant forall j :: i <= j < |handlers| ==> Open(handlers[j]) && (handlers[j].done || handlers[j].expected == received)
        invariant forall j :: i <= j < |handlers| && handlers[j] in prompt ==> !handlers[j].done && !handlers[j].paused
      {
        assert forall j :: 0 <= j < |handlers| && j != i ==> handlers[j] != handlers[i];
        var throws: bool := *;
        handlers[i].Finish(trailers, throws);
      }
    }

    ghost predicate Finished(h: WaitingHandler, trailers: bool, received: seq<Chunk>)
      reads h
    {
      && h.Valid() && h.Settled(trailers) && h.maxBufferSize == maxBufferSize
      && (!h.done ==> h.expected == received && h.pendingTrailers == trailers)
      && (h.ends > 0 ==> h.delivered == h.expected == received)
    }

    /** It has seen all of the response that came. */
    ghost predicate Due(h: WaitingHandler)
      reads this, h
    {
      Open(h) && (h.done || h.expected == received)
    }

    /** onResponseError: every consumer not over yet hears the error. */
    method OnResponseError()
      requires Valid()
      modifies this`aborted, this`completed, this`waitingHandlers, attached
      ensures Valid() && completed
      ensures !old(completed) ==> aborted && waitingHandlers == [] && forall h :: h in attached ==> h.done
      ensures forall h :: h in attached ==>
                h.errors == old(h.errors) + if old(completed || h.done) then 0 else 1
    {
      hide WaitingHandler.Valid;
      if completed {
        return;
      }
      assert forall h :: h in attached ==> Sees(h);
      aborted, completed := true, true;
      var handlers := waitingHandlers;
      for i := 0 to |handlers|
        invariant aborted && completed && waitingHandlers == handlers
        invariant forall h :: h in attached ==> h.Valid() && h.maxBufferSize == maxBufferSize && h.ends == 0
        invariant forall j :: 0 <= j < i ==> handlers[j].done
        invariant forall h :: h in attached && !h.done ==> h in handlers
        invariant forall h :: h in attached ==> if h.done && !old(h.done) then h.errors == old(h.errors) + 1
                                                 else h.errors == old(h.errors) && h.done == old(h.done)
      {
        assert handlers[i] in attached;
        handlers[i].Error();
      }
      waitingHandlers := [];
    }

    // Calls a consumer makes on its controller between events.

    method Pause(h: WaitingHandler)
      requires Valid() && h in attached
      modifies h`paused
      ensures Valid() && h.paused == (!h.aborted || old(h.paused))
    {
      assert Sees(h);
      h.Pause();
    }

    /** resume: the consumer gets what was buffered. If the response is over and the consumer neither
        paused again nor aborted, it has then seen all of it; and it hears the end exactly if the end of
        the response came with trailers to keep. */
    method Resume(h: WaitingHandler)
      requires Valid() && h in attached
      modifies h, this`waitingHandlers
      ensures Valid()
      ensures !old(h.done) && !h.paused && !h.aborted ==> h.delivered == received
      ensures !old(h.done) && old(h.bufferedChunks) != [] ==> |h.delivered| > |old(h.delivered)|
      ensures !old(h.done) && old(h.bufferedChunks) == [] ==> !h.paused
      ensures forall w :: w in waitingHandlers <==> w in old(waitingHandlers) && !w.done
      ensures old(completed) && !old(h.done) && !h.paused && !h.aborted ==> (h.ends == 1 <==> trailers)
    {
      assert Sees(h);
      h.Resume(completed);
      assert h.delivered + [] == h.delivered;
      assert Sees(h);
      Prune();
    }

    method Abort(h: WaitingHandler)
      requires Valid() && h in attached
      modifies h
      ensures Valid() && h.done
    {
      assert Sees(h);
      h.Abort();
    }

    method Called(h: WaitingHandler, call: ControllerCall)
      requires Valid() && h in attached
      modifies h, this`waitingHandlers
      ensures Valid()
    {
      match call {
        case CallPause => Pause(h);
        case CallResume => Resume(h);
        case CallAbort => Abort(h);
      }
    }

    /** What the invariant says of one consumer. */
    lemma Serves(h: WaitingHandler)
      requires Valid() && h in attached
      ensures Served(h, received, completed, trailers, maxBufferSize)
    {
      assert Sees(h);
      assert h.delivered + [] == h.delivered;
    }
  }

  datatype Event =
    | Attaches | Starts | Data(chunk: Chunk) | Ends(trailers: bool) | Fails
    | Calls(consumer: nat, call: ControllerCall)

  /** What a consumer has been given, read without the invariant: until it fails it has the beginning of the
      response and the buffer holds the rest, within its limit and only while it pauses; it hears at most one
      end, and then has had everything; and it is handed nothing while it pauses or once it is over. */
  ghost predicate Served(h: WaitingHandler, received: seq<Chunk>, completed: bool, trailers: bool, maxBufferSize: nat)
    reads h
  {
    && (!h.done ==> h.delivered + h.bufferedChunks == received && (!h.paused ==> h.bufferedChunks == []))
    && h.bufferedBytes == Total(h.bufferedChunks) <= maxBufferSize
    && h.ends <= 1
    && h.ends + h.errors == (if h.done && !h.refused then 1 else 0) + (if h.threw then 1 else 0) + (if h.lateAbort then 1 else 0)
    && (!h.refused ==> (h.ends + h.errors <= 1 <==> !h.threw && !h.lateAbort))
    && (h.ends == 1 ==> completed && h.delivered == received)
    && (!h.done && !h.paused ==> !(completed && trailers))
    && !h.disturbed
  }

  /** The chunks that the events bring. */
  ghost function Brought(events: seq<Event>): seq<Chunk> {
    if events == [] then []
    else
      var last := events[|events| - 1];
      Brought(events[..|events| - 1]) + if last.Data? then [last.chunk] else []
  }

  lemma BroughtNone()
    ensures Brought([]) == []
  {
  }

  lemma BroughtMore(events: seq<Event>, i: nat)
    requires i < |events|
    ensures Brought(events[..i + 1]) == Brought(events[..i]) + if events[i].Data? then [events[i].chunk] else []
  {
    assert events[..i + 1][..i] == events[..i];
  }

  /** Any run, whatever the consumers do inside their callbacks and between them. */
  method Run(maxBufferSize: nat, events: seq<Event>)
      returns (handler: DeduplicationHandler, consumers: seq<WaitingHandler>)
    ensures handler.Valid() && forall h :: h in consumers <==> h in handler.attached
    ensures forall h :: h in consumers ==> Served(h, handler.received, handler.completed, handler.trailers, maxBufferSize)
    ensures (forall e :: e in events ==> !e.Ends? && !e.Fails?) ==> handler.received == Brought(events)
  {
    hide Brought, Served, DeduplicationHandler.Valid, WaitingHandler.Valid;
    handler := new DeduplicationHandler(maxBufferSize);
    consumers := [];
    BroughtNone();
    for i := 0 to |events|
      invariant handler.Valid() && fresh(handler) && handler.maxBufferSize == maxBufferSize
      invariant (forall h :: h in handler.attached ==> fresh(h)) && forall h :: h in consumers <==> h in handler.attached
      invariant (forall e :: e in events[..i] ==> !e.Ends? && !e.Fails?) ==>
                  !handler.aborted && !handler.completed && handler.received == Brought(events[..i])
    {
      BroughtMore(events, i);
      assert events[..i + 1] == events[..i] + [events[i]];
      match events[i] {
        case Attaches =>
          var accepted, h := handler.AddWaitingHandler();
          if accepted {
            consumers := consumers + [h];
          }
        case Starts =>
          if !handler.completed && !handler.responseDataStarted {
            handler.OnResponseStart();
          }
        case Data(chunk) =>
          handler.OnResponseData(chunk);
        case Ends(trailers) =>
          handler.OnResponseEnd(trailers);
        case Fails =>
          handler.OnResponseError();
        case Calls(k, call) =>
          if k < |consumers| {
            assert consumers[k] in consumers;
            handler.Called(consumers[k], call);
          }
      }
    }
    assert events[..|events|] == events;
    forall h | h in consumers
      ensures Served(h, handler.received, handler.completed, handler.trailers, maxBufferSize)
    {
      handler.Serves(h);
    }
  }
}
