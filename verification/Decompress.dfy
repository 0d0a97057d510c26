/** The decoding path of lib/interceptor/decompress.js: a handler that pulls from a decompressor, and passes
pause and resume between a consumer and the connection it reads from.

The consumer may pause, resume or abort from inside the callback that hands it data, and a connection
that is resumed may deliver more input at once. The decompressor's output is some sequence of bytes
that appears piece by piece. Aborting the connection reports the error before the call returns. */
module Decompress {
  type Byte = bv8

  class DecompressHandler {
    const maxSize: nat            // zero: no limit
    var decompressedSize: nat
    var paused: bool              // DecompressController.#paused, what the consumer asked for
    var terminated: bool
    var inputEnded: bool
    var inputBackpressured: bool
    var upstreamPaused: bool
    var draining: bool
    var drainRequested: bool
    var completionPending: bool

    // The decompressor: output not read yet, and a 'readable' event that is still to come.
    var output: seq<Byte>
    var readable: bool
    // The connection.
    var sourcePaused: bool

    // History: all output so far, what the consumer got, and its terminal events; how often the connection was let go;
    // and whether the consumer was ever handed data or the end while it paused or was over.
    ghost var produced: seq<Byte>
    ghost var delivered: seq<Byte>
    ghost var ends: nat
    ghost var errors: nat
    ghost var letGo: nat
    ghost var disturbed: bool

    constructor (maxSize: nat)
      ensures Valid() && Settled() && !terminated && !paused && !inputEnded && produced == [] && this.maxSize == maxSize
      ensures output == [] && !inputBackpressured && !sourcePaused && letGo == 0 && !readable
    {
      this.maxSize := maxSize;
      decompressedSize, paused, terminated, inputEnded, inputBackpressured := 0, false, false, false, false;
      upstreamPaused, draining, drainRequested, completionPending := false, false, false, false;
      output, readable, sourcePaused := [], false, false;
      produced, delivered, ends, errors, letGo, disturbed := [], [], 0, 0, 0, false;
    }

    /** What holds at every moment, also inside a callback. */
    ghost predicate Valid()
      reads this
    {
      && (if terminated then delivered <= produced else delivered + output == produced)
      && ends + errors == (if terminated then 1 else 0) && !disturbed
      && (ends == 1 ==> inputEnded && delivered == produced)
      && (maxSize > 0 ==> decompressedSize == |delivered| <= maxSize)
      && (!terminated ==>
            && (!inputEnded ==> (sourcePaused <==> upstreamPaused))
            && (paused || inputBackpressured ==> upstreamPaused)
            && (completionPending ==> inputEnded && output == []))
    }

    /** What holds between events: nothing that could go on is waiting for a wake-up. */
    ghost predicate Settled()
      reads this
    {
      && !draining
      && (!terminated ==>
            && (upstreamPaused <==> paused || inputBackpressured)
            && (completionPending ==> paused)
            && (output != [] ==> paused || readable))
    }

    ghost predicate Balanced()
      reads this
    {
      !terminated ==> (upstreamPaused <==> paused || inputBackpressured)
    }

    // The consumer's controller.

    /** pause */
    method Pause()
      requires Valid()
      modifies this`paused, this`upstreamPaused, this`sourcePaused
      ensures Valid() && paused && (old(Settled()) ==> Settled()) && (old(upstreamPaused) ==> upstreamPaused)
    {
      if paused {
        return;
      }
      paused := true;
      PauseUpstream();
    }

    /** #pauseUpstream */
    method PauseUpstream()
      modifies this`upstreamPaused, this`sourcePaused
      ensures if terminated || old(upstreamPaused)
              then upstreamPaused == old(upstreamPaused) && sourcePaused == old(sourcePaused)
              else upstreamPaused && sourcePaused
    {
      if !upstreamPaused && !terminated {
        upstreamPaused := true;
        sourcePaused := true;
      }
    }

    /** abort: the error reaches the consumer, unless it has already heard the end. */
    method Abort()
      requires Valid()
      modifies this`terminated, this`errors
      ensures Valid() && terminated
    {
      OnResponseError();
    }

    // The connection.

    /** onResponseData: the decompressor may answer that its input is full. */
    method OnResponseData(full: bool)
      requires Valid() && !inputEnded && !terminated
      modifies this`inputBackpressured, this`upstreamPaused, this`sourcePaused
      ensures Valid() && (old(Settled()) ==> Settled()) && (old(Balanced()) ==> Balanced())
      ensures inputBackpressured == (old(inputBackpressured) || full) && (full ==> sourcePaused)
    {
      if full {
        inputBackpressured := true;
        PauseUpstream();
      }
    }

    /** onResponseEnd: the decompressor gets no more input. */
    method OnResponseEnd()
      requires Valid() && !inputEnded && !terminated
      modifies this`inputEnded
      ensures Valid() && inputEnded && (old(Settled()) ==> Settled())
    {
      inputEnded := true;
    }

    /** onResponseError */
    method OnResponseError()
      requires Valid()
      modifies this`terminated, this`errors
      ensures Valid() && terminated && (old(Settled()) ==> Settled())
    {
      if terminated {
        return;
      }
      terminated := true;
      assert delivered <= produced;
      errors := errors + 1;
    }

    /** A connection that is not paused delivers input, as much as it likes, and perhaps its end. */
    method SourceRuns()
      requires Valid()
      modifies this`sourcePaused, this`inputBackpressured, this`upstreamPaused, this`inputEnded
      ensures Valid() && (old(Balanced()) ==> Balanced())
      ensures old(inputEnded) ==> inputEnded
    {
      var n: nat, end: bool := *, *;
      while n > 0 && !sourcePaused && !terminated && !inputEnded
        invariant Valid() && (old(Balanced()) ==> Balanced())
        invariant old(inputEnded) ==> inputEnded
        decreases n
      {
        var full: bool := *;
        OnResponseData(full);
        n := n - 1;
      }
      if end && !sourcePaused && !terminated && !inputEnded {
        OnResponseEnd();
      }
    }

    /** #resumeUpstreamIfNeeded */
    method ResumeUpstreamIfNeeded()
      requires Valid()
      modifies this`sourcePaused, this`inputBackpressured, this`upstreamPaused, this`inputEnded, this`letGo
      ensures letGo == old(letGo) + if old(upstreamPaused && !paused && !inputBackpressured && !inputEnded) then 1 else 0
      ensures !old(upstreamPaused && !paused && !inputBackpressured) ==> unchanged(this)
      ensures Valid() && (!paused || old(Balanced()) ==> Balanced())
      ensures old(inputEnded) ==> inputEnded
    {
      if upstreamPaused && !paused && !inputBackpressured {
        upstreamPaused := false;
        if !inputEnded {
          sourcePaused, letGo := false, letGo + 1;
          SourceRuns();
        }
      }
    }

    /** #onDownstreamResume, with the check before it in DecompressController.resume. */
    method Resume()
      requires Valid() && (!draining ==> Settled())
      modifies this
      ensures Valid() && draining == old(draining) && completionPending == old(completionPending) && readable == old(readable)
      ensures !draining ==> Settled() && (old(paused) && !terminated && !paused ==> output == [])
      ensures draining ==> Within(old(delivered), old(produced), old(output), old(inputEnded)) && Held(old(letGo), old(inputBackpressured))
                           && (old(upstreamPaused) ==> upstreamPaused)
      ensures old(paused) && !old(terminated) && draining ==> !paused && drainRequested
      ensures !old(paused) ==> unchanged(this)
      // What was held back while it paused goes on.
      ensures old(paused) && !old(terminated) && !draining ==>
                && (old(output) == [] ==> !paused && delivered == old(delivered) && (old(completionPending) ==> ends == 1))
                && (old(output) != [] ==> terminated || |delivered| > |old(delivered)|)
                && (!terminated && !paused && old(sourcePaused && !inputBackpressured && !inputEnded) ==> letGo > old(letGo))
      decreases !draining, 2
    {
      if !paused {
        return;
      }
      paused := false;
      var drainWasDeferred := draining;
      DrainOutput();
      if !drainWasDeferred {
        ResumeUpstreamIfNeeded();
        FinishIfReady();
      }
    }

    /** What a callback that hands out data leaves alone. */
    ghost predicate Within(delivered0: seq<Byte>, produced0: seq<Byte>, output0: seq<Byte>, inputEnded0: bool)
      reads this
    {
      delivered == delivered0 && produced == produced0 && output == output0 && inputEnded == inputEnded0
    }

    ghost predicate Held(letGo0: nat, inputBackpressured0: bool)
      reads this
    {
      letGo == letGo0 && inputBackpressured == inputBackpressured0
    }

    /** #drainOutput: hands out what the decompressor has, until that is nothing or the consumer pauses. */
    method DrainOutput()
      requires Valid()
      modifies this
      ensures Valid() && draining == old(draining) && completionPending == old(completionPending) && readable == old(readable)
      ensures old(draining) ==> Within(old(delivered), old(produced), old(output), old(inputEnded))
      ensures !draining && !terminated && !paused ==>
                output == [] && !completionPending && (upstreamPaused <==> inputBackpressured)
      ensures old(produced) == produced
      ensures old(terminated) || old(paused) ==> unchanged(this)
      ensures old(draining) && !old(terminated) && !old(paused) ==>
                drainRequested && unchanged(`paused, `terminated, `upstreamPaused, `letGo, `inputBackpressured, `sourcePaused, `ends, `errors)
      ensures !old(draining) && !old(terminated) && !old(paused) ==>
                && (old(output) == [] ==>
                      !paused && delivered == old(delivered) && errors == old(errors) && (terminated <==> old(completionPending)))
                && (old(output) != [] ==> terminated || |delivered| > |old(delivered)|)
                && (!terminated && !paused && old(upstreamPaused && !inputBackpressured && !inputEnded) ==> letGo > old(letGo))
      decreases !draining, 1
    {
      if terminated || paused {
        return;
      }
      if draining {
        drainRequested := true;
        return;
      }
      draining := true;
      var exceeded := DrainLoop();
      draining := false;
      if exceeded {
        return;
      }
      ResumeUpstreamIfNeeded();
      FinishIfReady();
    }

    /** Its two loops: until there is nothing to hand out and no drain was asked for meanwhile, or the consumer pauses,
        or all is over. */
    method DrainLoop() returns (exceeded: bool)
      requires Valid() && draining && !terminated && !paused
      modifies this
      ensures Valid() && draining && produced == old(produced) && completionPending == old(completionPending) && readable == old(readable)
      ensures if exceeded then terminated else terminated || paused || output == []
      ensures Drained(old(delivered), old(output), old(upstreamPaused), old(letGo), old(inputBackpressured), old(inputEnded), old(errors))
      ensures if old(output) == [] then !terminated && !paused else terminated || |delivered| > |old(delivered)|
      decreases !draining, 4
    {
      ghost var d, o, u, l, b, e, x := delivered, output, upstreamPaused, letGo, inputBackpressured, inputEnded, errors;
      var more := true;
      while more
        invariant Valid() && draining && produced == old(produced) && completionPending == old(completionPending) && readable == old(readable)
        invariant if more then !terminated && !paused else terminated || paused || output == []
        invariant Drained(d, o, u, l, b, e, x)
        invariant if o == [] then !terminated && !paused else more || terminated || |delivered| > |d|
        decreases more, |output|
      {
        drainRequested := false;
        ghost var size := |output|;
        while !terminated && !paused && output != []
          invariant Valid() && draining && produced == old(produced) && completionPending == old(completionPending) && readable == old(readable)
          invariant |output| <= size && (drainRequested ==> |output| < size)
          invariant Drained(d, o, u, l, b, e, x)
          invariant if o == [] then !terminated && !paused else output == o || terminated || |delivered| > |d|
          invariant terminated || paused ==> terminated || |delivered| > |d|
          decreases |output|
        {
          exceeded := HandOut();
          if exceeded {
            return;
          }
        }
        more := drainRequested && !terminated && !paused;
      }
      return false;
    }

    /** How far the loop of DrainOutput has come, as against its start. */
    ghost predicate Drained(delivered0: seq<Byte>, output0: seq<Byte>, upstreamPaused0: bool, letGo0: nat, inputBackpressured0: bool,
                            inputEnded0: bool, errors0: nat)
      reads this
    {
      && Held(letGo0, inputBackpressured0) && inputEnded == inputEnded0 && (upstreamPaused0 ==> upstreamPaused)
      && |delivered0| <= |delivered|
      && (output0 == [] ==> output == [] && delivered == delivered0 && errors == errors0)
      && (output == output0 || terminated || |delivered| > |delivered0|)
    }

    /** One turn of the inner loop: a piece of output, if the limit allows, and whatever the consumer does
        while it is handed the piece. Past the limit the response fails, and the drain is over at once. */
    method HandOut() returns (exceeded: bool)
      requires Valid() && draining && !terminated && !paused && output != []
      modifies this
      ensures Valid() && draining && produced == old(produced) && |output| < |old(output)|
      ensures completionPending == old(completionPending) && readable == old(readable)
      ensures exceeded ==> terminated && maxSize > 0 && delivered == old(delivered) && upstreamPaused == old(upstreamPaused)
                           && |delivered| + |old(output)| > maxSize
      ensures !exceeded ==> old(delivered) <= delivered && |delivered| > |old(delivered)|
      ensures Held(old(letGo), old(inputBackpressured)) && inputEnded == old(inputEnded) && (old(upstreamPaused) ==> upstreamPaused)
      decreases !draining, 3
    {
      var n := *;
      if n <= 0 || n > |output| {
        n := |output|;
      }
      var chunk := output[..n];
      if maxSize > 0 && decompressedSize + |chunk| > maxSize {
        Fail();
        output := output[n..];
        return true;
      }
      disturbed := disturbed || paused || terminated;
      decompressedSize := decompressedSize + |chunk|;
      output := output[n..];
      delivered := delivered + chunk;
      Consume();
      return false;
    }

    /** The consumer's onResponseData: any number of calls on its controller, and then perhaps false. */
    method Consume()
      requires Valid() && draining
      modifies this
      ensures Valid() && draining && Within(old(delivered), old(produced), old(output), old(inputEnded))
      ensures completionPending == old(completionPending) && readable == old(readable)
      ensures Held(old(letGo), old(inputBackpressured)) && (old(upstreamPaused) ==> upstreamPaused)
      decreases !draining, 3, 0
    {
      var calls: nat := *;
      while calls > 0
        invariant Valid() && draining && Within(old(delivered), old(produced), old(output), old(inputEnded))
        invariant completionPending == old(completionPending) && readable == old(readable)
        invariant Held(old(letGo), old(inputBackpressured)) && (old(upstreamPaused) ==> upstreamPaused)
        decreases calls
      {
        var call: ControllerCall := *;
        match call {
          case CallPause => Pause();
          case CallResume => Resume();
          case CallAbort => Abort();
        }
        calls := calls - 1;
      }
      var result: bool := *;
      if !result && !paused {
        Pause();
      }
    }

    /** #fail */
    method Fail()
      requires Valid()
      modifies this`terminated, this`errors
      ensures Valid() && terminated && (old(Settled()) ==> Settled())
    {
      if terminated {
        return;
      }
      if inputEnded {
        OnResponseError();
      } else {
        Abort();
      }
    }

    /** #finishIfReady: the end, once everything was handed out and the consumer is not pausing. */
    method FinishIfReady()
      requires Valid()
      modifies this`terminated, this`ends, this`disturbed
      ensures Valid()
      ensures old(terminated) || !completionPending || paused || draining ==> terminated == old(terminated) && ends == old(ends)
      ensures !old(terminated) && completionPending && !paused && !draining ==> terminated && ends == 1
    {
      if terminated || !completionPending || paused || draining {
        return;
      }
      assert output == [] && delivered + output == delivered;
      disturbed := disturbed || paused || terminated;
      terminated := true;
      ends := ends + 1;
    }

    // The decompressor's events.

    /** Output appears; 'readable' will say so. */
    method Produce(bytes: seq<Byte>)
      requires Valid() && Settled() && !terminated && !completionPending
      modifies this`output, this`readable, this`produced
      ensures Valid() && Settled() && produced == old(produced) + bytes
    {
      assert delivered + (output + bytes) == produced + bytes;
      output, produced := output + bytes, produced + bytes;
      readable := true;
    }

    /** 'readable' */
    method OnReadable()
      requires Valid() && Settled()
      modifies this
      ensures Valid() && Settled() && produced == old(produced)
      ensures !readable && (!terminated && !paused ==> output == [])
      ensures !old(terminated || paused) && old(output) != [] ==> terminated || |delivered| > |old(delivered)|
    {
      readable := false;
      DrainOutput();
    }

    /** 'end', or the callback of the pipeline: all input is used and all output was read. */
    method OnDecompressionEnd()
      requires Valid() && Settled() && inputEnded && output == []
      modifies this
      ensures Valid() && Settled()
      ensures !old(terminated) ==> if old(paused) then paused && completionPending && !terminated else ends == 1
    {
      if terminated {
        return;
      }
      completionPending := true;
      DrainOutput();
      FinishIfReady();
    }

    /** 'drain': the decompressor takes input again. A connection that it held back goes on, unless the consumer pauses
        or all input has come. */
    method OnDrain()
      requires Valid() && Settled()
      modifies this
      ensures Valid() && Settled()
      ensures !old(terminated) && old(paused) ==> !inputBackpressured && paused && letGo == old(letGo)
      ensures !old(terminated || paused || inputEnded) && old(sourcePaused) && !terminated && !paused ==> letGo > old(letGo)
      ensures !old(terminated || paused || completionPending) && old(output) == [] ==> !paused && !terminated
    {
      if terminated {
        return;
      }
      inputBackpressured := false;
      if !paused {
        DrainOutput();
        ResumeUpstreamIfNeeded();
      }
    }
  }

  /** A chunk fills the decompressor, which holds the connection back until it drains. */
  method FullThenDrained() returns (handler: DecompressHandler)
    ensures handler.letGo >= 1 && !handler.terminated && !handler.paused
  {
    handler := new DecompressHandler(0);
    handler.OnResponseData(true);
    assert handler.sourcePaused && handler.output == [];
    handler.OnDrain();
  }

  datatype ControllerCall = CallPause | CallResume | CallAbort

  datatype Event =
    | Output(bytes: seq<Byte>) | Readable | DecoderEnd | DecoderError | InputDrain
    | Input(full: bool) | InputEnd | InputError | Call(call: ControllerCall)

  /** Any run, whatever the consumer does inside the callbacks and between them. The consumer gets a
      beginning of what the decompressor puts out, all of it if it hears the end, within the limit, and
      at most one terminal event. Between events nothing is left waiting: while it does not pause, the
      connection is held back only by a full decompressor, and no output and no end is kept back. */
  method Run(maxSize: nat, events: seq<Event>) returns (handler: DecompressHandler)
    ensures handler.Valid() && handler.Settled()
    ensures handler.delivered <= handler.produced && handler.ends + handler.errors <= 1 && !handler.disturbed
    ensures handler.ends == 1 ==> handler.delivered == handler.produced
    ensures maxSize > 0 ==> |handler.delivered| <= maxSize
    ensures !handler.terminated && !handler.paused && !handler.readable ==>
              handler.delivered == handler.produced && !handler.completionPending
              && (handler.upstreamPaused <==> handler.inputBackpressured)
  {
    handler := new DecompressHandler(maxSize);
    for i := 0 to |events|
      invariant handler.Valid() && handler.Settled() && fresh(handler) && handler.maxSize == maxSize
    {
      match events[i] {
        case Output(bytes) =>
          if !handler.terminated && !handler.completionPending {
            handler.Produce(bytes);
          }
        case Readable =>
          handler.OnReadable();
        case DecoderEnd =>
          if handler.inputEnded && handler.output == [] {
            handler.OnDecompressionEnd();
          }
        case DecoderError =>
          handler.Fail();
        case InputDrain =>
          handler.OnDrain();
        case Input(full) =>
          if !handler.terminated && !handler.inputEnded && !handler.sourcePaused {
            handler.OnResponseData(full);
          }
        case InputEnd =>
          if !handler.terminated && !handler.inputEnded && !handler.sourcePaused {
            handler.OnResponseEnd();
          }
        case InputError =>
          handler.OnResponseError();
        case Call(CallPause) =>
          handler.Pause();
        case Call(CallResume) =>
          handler.Resume();
        case Call(CallAbort) =>
          handler.Abort();
      }
    }
    assert !handler.terminated && handler.output == [] ==> handler.delivered + [] == handler.delivered;
  }
}
