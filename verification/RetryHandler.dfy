/** lib/handler/retry-handler.js with its default throwOnError: one downstream response stitched together
from any number of attempts by byte ranges (section 14.4 of RFC 9110), under a retry budget.

The dispatcher calls the methods in the order of an attempt; when one throws, it calls OnResponseError. */
module RetryHandler {
  import opened Wrappers

  type Byte = bv8

  /** The Content-Range header. */
  datatype RangeHeader = Absent | Malformed | Bytes(start: nat, end: nat, size: Option<nat>)

  datatype Headers = Headers(contentRange: RangeHeader, contentLength: Option<nat>, etag: Option<string>)

  /** parseRangeHeader: the first and last byte of the content; none for a header it cannot read. */
  function ParseRange(h: RangeHeader): Option<(nat, Option<nat>)> {
    match h
    case Absent => Some((0, None))
    case Malformed => None
    case Bytes(start, end, _) => Some((start, Some(end)))
  }

  /** validatePartialResponseContentLength does not throw. */
  predicate LengthFits(headers: Headers, range: (nat, Option<nat>)) {
    headers.contentLength.Some? && range.1.Some? ==>
      headers.contentLength.value == range.1.value - range.0 + 1
  }

  predicate Weak(etag: string) {
    |etag| >= 2 && etag[0] == 'W' && etag[1] == '/'
  }

  function StrongEtag(headers: Headers): Option<string> {
    if headers.etag.Some? && !Weak(headers.etag.value) then headers.etag else None
  }

  lemma StrongIsKept(statusCode: nat, headers: Headers)
    requires statusCode < 300 && (statusCode == 206 ==> headers.contentRange.Bytes?)
    ensures StrongEtag(headers) == KeptEtag(statusCode, headers)
    ensures StrongEtag(headers).Some? ==> StrongEtag(headers) == headers.etag
  {
  }

  /** Where an attempt stands; the dispatcher's side of the protocol. */
  datatype Phase = Dispatched | Receiving | Failing | Deciding | Done

  datatype Answer = Accepted | Threw

  /** A Content-Range that says which bytes follow. */
  function Located(headers: Headers): Option<(nat, Option<nat>)> {
    var parsed := ParseRange(headers.contentRange);
    if parsed.Some? && parsed.value.1.Some? then parsed else None
  }

  /** A response passed on under this status and these headers is resumed when it breaks off: a success, unless it is a
      part that does not say which; and any other that declares its length, unless there is no body. */
  predicate Resumable(head: bool, statusCode: nat, headers: Headers) {
    if statusCode < 300 then statusCode != 206 || Located(headers).Some?
    else headers.contentLength.Some? && !head
  }

  ghost function KeptEtag(statusCode: nat, headers: Headers): Option<string> {
    if statusCode < 300 && (statusCode != 206 || headers.contentRange.Bytes?) && headers.etag.Some? && !("W/" <= headers.etag.value)
    then headers.etag else None
  }

  /** An attempt whose response was passed on or joined to one: its etag and body, and which bytes went downstream. */
  datatype Part = Part(statusCode: nat, etag: Option<string>, body: seq<Byte>, from: nat, to: nat)

  /** Each part goes on where the one before it broke off: in a 206, or in a 200 if nothing was sent so far. */
  ghost predicate Contiguous(parts: seq<Part>) {
    parts == [] ||
    (var k := |parts| - 1;
     && Contiguous(parts[..k])
     && parts[k].from <= parts[k].to <= |parts[k].body|
     && (k > 0 ==> parts[k].from == parts[k - 1].to && Follows(parts[k])))
  }

  ghost predicate Follows(part: Part) {
    part.statusCode == 206 || (part.statusCode == 200 && part.from == 0)
  }

  function Joined(parts: seq<Part>): seq<Byte>
    requires Contiguous(parts)
  {
    if parts == [] then []
    else
      var k := |parts| - 1;
      Joined(parts[..k]) + parts[k].body[parts[k].from..parts[k].to]
  }

  ghost predicate Stitched(parts: seq<Part>, sent: seq<Byte>) {
    Contiguous(parts) && sent == Joined(parts)
  }

  /** If all attempts carry the same representation, what was joined is one stretch of it. */
  lemma {:induction false} OneStretch(parts: seq<Part>, representation: seq<Byte>)
    requires Contiguous(parts) && parts != [] && forall p :: p in parts ==> p.body == representation
    ensures parts[0].from <= parts[|parts| - 1].to <= |representation|
    ensures Joined(parts) == representation[parts[0].from..parts[|parts| - 1].to]
  {
    hide Contiguous, Joined;
    var k := |parts| - 1;
    var last := parts[k];
    assert last in parts;
    LastPart(parts);
    if k > 0 {
      var before := parts[..k];
      assert forall p :: p in before ==> p in parts;
      OneStretch(before, representation);
      Adjacent(representation, parts[0].from, last.from, last.to);
    }
  }

  lemma LastPart(parts: seq<Part>)
    requires Contiguous(parts) && parts != []
    ensures var k := |parts| - 1; var last := parts[k];
            && Contiguous(parts[..k]) && last.from <= last.to <= |last.body| && (k > 0 ==> last.from == parts[k - 1].to)
            && Joined(parts) == (if k > 0 then Joined(parts[..k]) else []) + last.body[last.from..last.to]
  {
  }

  lemma Adjacent(body: seq<Byte>, a: nat, b: nat, c: nat)
    requires a <= b <= c <= |body|
    ensures body[a..b] + body[b..c] == body[a..c]
  {
  }

  /** Whatever the first response is, downstream gets its own bytes up to where the first resumed attempt sets in, and
      the other attempts' from there on. */
  lemma {:induction false} FirstThenRest(parts: seq<Part>, representation: seq<Byte>)
    requires Contiguous(parts) && |parts| > 1 && forall p :: p in parts[1..] ==> p.body == representation
    ensures var first, end := parts[0], parts[|parts| - 1].to;
            && first.from <= first.to <= |first.body| && first.to <= end <= |representation|
            && Joined(parts) == first.body[first.from..first.to] + representation[first.to..end]
  {
    hide Contiguous, Joined;
    var k := |parts| - 1;
    var before, last, first := parts[..k], parts[k], parts[0];
    assert parts[1..][k - 1] == last && last in parts[1..];
    LastPart(parts);
    if k == 1 {
      LastPart(before);
    } else {
      assert forall p :: p in before[1..] ==> p in parts[1..];
      FirstThenRest(before, representation);
      Adjacent(representation, first.to, last.from, last.to);
    }
  }

  lemma StitchedFirst(part: Part)
    requires part.from == part.to <= |part.body|
    ensures Stitched([part], [])
  {
    assert Contiguous([part][..0]) && Joined([part][..0]) == [];
  }

  /** The last part grows. */
  lemma StitchedGrows(parts: seq<Part>, sent: seq<Byte>, chunk: seq<Byte>)
    requires Stitched(parts, sent) && parts != []
    requires var last := parts[|parts| - 1];
             last.to + |chunk| <= |last.body| && chunk == last.body[last.to..last.to + |chunk|]
    ensures var k := |parts| - 1; Stitched(parts[k := parts[k].(to := parts[k].to + |chunk|)], sent + chunk)
  {
    var k := |parts| - 1;
    var last := parts[k];
    assert parts[k := last.(to := last.to + |chunk|)][..k] == parts[..k];
    Adjacent(last.body, last.from, last.to, last.to + |chunk|);
  }

  /** A new part begins, empty. */
  lemma StitchedNext(parts: seq<Part>, sent: seq<Byte>, next: Part)
    requires Stitched(parts, sent) && parts != []
    requires next.from == next.to == parts[|parts| - 1].to <= |next.body| && Follows(next)
    ensures Stitched(parts + [next], sent)
  {
    assert (parts + [next])[..|parts|] == parts;
  }

  class RetryHandler {
    const head: bool              // opts.method is HEAD
    const statusCodes: set<nat>   // status codes that are retried
    var error: bool               // this.error is set: the attempt's body is discarded
    var headersSent: bool
    var start: nat
    var end: Option<int>
    var etag: Option<string>
    var resume: bool
    var retryCount: nat
    var retryCountCheckpoint: nat
    var retryPending: bool
    var aborted: bool
    /** The Range header of the last retry, as first and last byte. */
    var range: Option<(nat, Option<int>)>

    // The other side: the body the current attempt carries, where the attempt is in it, and how far it has come.
    var body: seq<Byte>
    var position: nat
    var phase: Phase

    // History: the attempts whose bytes went downstream, those bytes, and what the response was started with; the final
    // onResponseStart, onResponseEnd and onResponseError passed on, and how often the consumer threw in onResponseEnd;
    // decisions and retries since it last did; all dispatches.
    ghost var parts: seq<Part>
    ghost var sent: seq<Byte>
    ghost var startHeaders: Headers
    ghost var starts: nat
    ghost var ends: nat
    ghost var errors: nat
    ghost var throws: nat
    ghost var decisions: nat
    ghost var retries: nat
    ghost var dispatches: nat

    constructor (head: bool, statusCodes: set<nat>)
      ensures Valid() && phase == Dispatched && dispatches == 1 && decisions == retries == throws == 0 && parts == []
      ensures this.head == head && this.statusCodes == statusCodes && !error && !headersSent && !aborted && position == 0
    {
      this.head, this.statusCodes := head, statusCodes;
      error, headersSent, start, end, etag, resume := false, false, 0, None, None, false;
      retryCount, retryCountCheckpoint, retryPending, aborted, range := 0, 0, false, false, None;
      phase, body, position, parts, sent, startHeaders := Dispatched, [], 0, [], [], Headers(Absent, None, None);
      starts, ends, errors, throws, decisions, retries, dispatches := 0, 0, 0, 0, 0, 0, 1;
    }

    ghost predicate Valid()
      reads this
    {
      && Unbroken() && OneTerminal() && CountedRetries() && ResumedOnlyIf() && KeepsEtag()
      && (phase == Receiving && !error ==> headersSent && position == start && parts[|parts| - 1].body == body)
      && (!headersSent ==> end.None? && etag.None? && !resume && start == 0 && sent == [])
    }

    /** What went downstream are stretches of the attempts' bodies, each from where the last one broke off, and `start`
        is where the next goes on. */
    ghost predicate Unbroken()
      reads `parts, `sent, `starts, `headersSent, `start
    {
      && Stitched(parts, sent)
      && starts == (if headersSent then 1 else 0)
      && (parts != [] ==> parts[|parts| - 1].to == start)
    }

    /** A response is resumed only as its status and headers allow. */
    ghost predicate ResumedOnlyIf()
      reads `parts, `headersSent, `resume, `startHeaders, `phase
    {
      && (headersSent <==> parts != [])
      && (headersSent ==>
            && (parts[0].statusCode < 300 || parts[0].statusCode !in statusCodes)
            && (resume <==> Resumable(head, parts[0].statusCode, startHeaders)))
      && (headersSent && (phase == Dispatched || phase == Deciding || |parts| > 1) ==> resume)
    }

    /** The etag of a first success is kept unless it is weak, and every part has the etag that is kept. */
    ghost predicate KeepsEtag()
      reads `etag, `parts, `startHeaders
    {
      && (parts != [] ==> etag == KeptEtag(parts[0].statusCode, startHeaders))
      && (etag.Some? ==> forall p :: p in parts ==> p.etag == etag)
    }

    /** One end or error is passed on when all is over, and besides one end each time the consumer threw at it. */
    ghost predicate OneTerminal()
      reads `ends, `errors, `throws, `phase, `headersSent, `end, `start, `retryPending, `aborted
    {
      && ends + errors == throws + (if phase == Done then 1 else 0)
      && (ends > throws ==> phase == Done && headersSent && (end.None? || start == end.value + 1))
      && (retryPending <==> phase == Deciding)
      && (aborted ==> phase == Done)
      && throws <= ends <= throws + 1
    }

    /** The counter a decision sees is its own number, counted anew where the consumer threw at the end. */
    ghost predicate CountedRetries()
      reads `phase, `retryCount, `retryCountCheckpoint, `decisions, `retries, `throws
    {
      && (phase == Dispatched ==> retryCount == retryCountCheckpoint == decisions == retries)
      && (phase == Receiving ==> retryCount == retryCountCheckpoint + 1 == decisions + 1 && retries == decisions)
      && (phase == Failing ==> retries == decisions && (FailsAttempt() || FailsEnd()))
      && (phase == Deciding ==> retryCount == decisions == retries + 1)
    }

    ghost predicate FailsAttempt()
      reads `retryCount, `retryCountCheckpoint, `decisions
    {
      retryCountCheckpoint == decisions && decisions <= retryCount <= decisions + 1
    }

    ghost predicate FailsEnd()
      reads `retryCount, `decisions, `throws
    {
      retryCount == decisions == 0 < throws
    }

    /** onResponseStart for a final response. */
    method OnResponseStart(statusCode: nat, headers: Headers, content: seq<Byte>) returns (answer: Answer)
      requires Valid() && phase == Dispatched && statusCode >= 200
      requires headers.contentRange.Bytes? ==> headers.contentRange.start <= |content|
      modifies this`start, this`end, this`etag, this`resume, this`error, this`headersSent, this`retryCount
      modifies this`starts, this`body, this`position, this`phase, this`parts, this`startHeaders
      ensures Valid() && starts <= 1 && phase == (if answer.Accepted? then Receiving else Failing)
      // Resuming: exactly the response that continues where the last one broke off.
      ensures old(headersSent) ==>
                (answer.Accepted? <==>
                  && (statusCode == 206 || (statusCode == 200 && old(start) == 0))
                  && (old(etag).Some? ==> headers.etag == old(etag))
                  && match headers.contentRange
                     case Malformed => false
                     case Absent => old(start) == 0 && old(end).None?
                     case Bytes(first, last, _) =>
                       && first == old(start) && (old(end).Some? ==> old(end) == Some(last))
                       && (headers.contentLength.Some? ==> headers.contentLength.value == last - first + 1))
      ensures old(headersSent) && answer.Accepted? ==> parts == old(parts) + [Part(statusCode, headers.etag, content, start, start)]
      ensures old(headersSent) ==> headersSent && start == old(start) && end == old(end) && etag == old(etag) && !error
      // Only a status that is neither a success nor to be retried, or a success, reaches downstream.
      ensures !old(headersSent) && answer.Accepted? ==> (headersSent <==> statusCode < 300 || statusCode !in statusCodes)
      ensures !old(headersSent) && headersSent ==>
                && parts == [Part(statusCode, headers.etag, content, start, start)] && startHeaders == headers && !error
                && Begun(statusCode, headers)
      ensures !old(headersSent) ==>
                (answer.Threw? <==> statusCode == 206 && headers.contentRange.Bytes? && headers.contentLength.Some?
                                    && headers.contentLength.value != headers.contentRange.end - headers.contentRange.start + 1)
      ensures answer.Accepted? && !error ==> body == content && position == start
      ensures answer.Threw? ==> parts == old(parts)
    {
      hide Stitched;
      error := false;
      retryCount := retryCount + 1;
      phase := Failing;
      if headersSent {
        if !Continues(statusCode, headers) {
          return Threw;
        }
        JoinPart(statusCode, headers.etag, content);
        return Accepted;
      }
      answer := FirstResponse(statusCode, headers, content);
    }

    /** What is known of a response that was just passed on: whether it can be resumed and with which etag, where it
        begins and which byte is its last. */
    ghost predicate Begun(statusCode: nat, headers: Headers)
      reads `resume, `etag, `start, `end
    {
      && (resume <==> if statusCode < 300 then statusCode != 206 || headers.contentRange.Bytes?
                      else headers.contentLength.Some? && !head)
      && etag == KeptEtag(statusCode, headers)
      && if statusCode == 206 && headers.contentRange.Bytes?
         then start == headers.contentRange.start && end == Some(headers.contentRange.end)
         else start == 0 && end == if head || statusCode == 206 || headers.contentLength.None? then None
                                   else Some(headers.contentLength.value - 1)
    }

    /** The checks on a response to a resumed request, in the order they are made. */
    predicate Continues(statusCode: nat, headers: Headers)
      reads this
    {
      if statusCode != 206 && (start > 0 || statusCode != 200) then false
      else
        match ParseRange(headers.contentRange)
        case None => false
        case Some(range) =>
          if etag.Some? && etag != headers.etag then false
          else if !LengthFits(headers, range) then false
          else !(start != range.0 || (end.Some? && end != range.1))
    }

    /** A response that continues the one before is joined to it. */
    method JoinPart(statusCode: nat, etag: Option<string>, content: seq<Byte>)
      requires Unbroken() && headersSent && parts != [] && start <= |content|
      requires KeepsEtag() && (this.etag.Some? ==> etag == this.etag)
      requires statusCode == 206 || (statusCode == 200 && start == 0)
      modifies this`body, this`position, this`phase, this`parts
      ensures Unbroken() && KeepsEtag() && phase == Receiving && body == content && position == start
      ensures parts == old(parts) + [Part(statusCode, etag, content, start, start)]
    {
      hide Stitched, Resumable, Located;
      StitchedNext(parts, sent, Part(statusCode, etag, content, start, start));
      parts := parts + [Part(statusCode, etag, content, start, start)];
      body, position := content, start;
      phase := Receiving;
    }

    /** The rest of onResponseStart, as long as nothing was sent downstream. */
    method FirstResponse(statusCode: nat, headers: Headers, content: seq<Byte>) returns (answer: Answer)
      requires Valid() && phase == Failing && !headersSent && !error && retryCount == decisions + 1 && statusCode >= 200
      requires headers.contentRange.Bytes? ==> headers.contentRange.start <= |content|
      modifies this`start, this`end, this`etag, this`resume, this`error, this`headersSent
      modifies this`starts, this`body, this`position, this`phase, this`parts, this`startHeaders
      ensures Valid() && phase == (if answer.Accepted? then Receiving else Failing)
      ensures answer.Accepted? ==> (headersSent <==> statusCode < 300 || statusCode !in statusCodes)
      ensures answer.Threw? <==> statusCode == 206 && headers.contentRange.Bytes? && headers.contentLength.Some?
                                 && headers.contentLength.value != headers.contentRange.end - headers.contentRange.start + 1
      ensures answer.Threw? ==> !headersSent
      ensures headersSent ==> parts == [Part(statusCode, headers.etag, content, start, start)] && startHeaders == headers && !error
      ensures answer.Accepted? ==> headersSent || error
      ensures headersSent ==> Begun(statusCode, headers)
    {
      hide Stitched;
      if statusCode >= 300 {
        OnResponseStartWithRetry(statusCode, headers, content);
        return Accepted;
      }
      assert end.None?; // so the error for a known end is never thrown
      if statusCode == 206 {
        var parsed := ParseRange(headers.contentRange);
        if parsed.None? || parsed.value.1.None? {
          SendStart(statusCode, headers, content);
          phase := Receiving;
          return Accepted;
        }
        if !LengthFits(headers, parsed.value) {
          return Threw;
        }
        start := parsed.value.0;
        end := parsed.value.1;
      }
      Begin(statusCode, headers, content);
      return Accepted;
    }

    /** A first success is passed on, and can be resumed. */
    method Begin(statusCode: nat, headers: Headers, content: seq<Byte>)
      requires OneTerminal() && CountedRetries() && phase == Failing && retryCount == decisions + 1
      requires Unbroken() && !headersSent && !error && sent == [] && parts == [] && start <= |content|
      requires statusCode < 300 && (statusCode == 206 ==> headers.contentRange.Bytes?) && Resumable(head, statusCode, headers)
      modifies this`end, this`etag, this`resume, this`headersSent, this`starts, this`body, this`position, this`phase
      modifies this`parts, this`startHeaders
      ensures Valid() && phase == Receiving && headersSent && resume
      ensures parts == [Part(statusCode, headers.etag, content, start, start)] && startHeaders == headers
      ensures etag == KeptEtag(statusCode, headers)
      ensures end == if old(end).Some? || head || headers.contentLength.None? then old(end) else Some(headers.contentLength.value - 1)
    {
      hide Unbroken, Resumable, Located, StrongEtag, KeptEtag, Stitched, Weak;
      StrongIsKept(statusCode, headers);
      CheckpointResponseEnd(headers);
      SendStart(statusCode, headers, content);
      resume, etag, phase := true, StrongEtag(headers), Receiving;
    }

    /** onResponseStartWithRetry: a status that is not to be retried is passed on as it is, and resumed later if a length
        was declared; one that is to be retried leaves its body to be discarded. */
    method OnResponseStartWithRetry(statusCode: nat, headers: Headers, content: seq<Byte>)
      requires Valid() && phase == Failing && !headersSent && !error && retryCount == decisions + 1 && statusCode >= 300
      modifies this`end, this`resume, this`error, this`headersSent, this`starts, this`body, this`position, this`phase
      modifies this`parts, this`startHeaders
      ensures Valid() && phase == Receiving && headersSent == (statusCode !in statusCodes) && error == !headersSent
      ensures headersSent ==> parts == [Part(statusCode, headers.etag, content, 0, 0)] && startHeaders == headers
      ensures headersSent ==> Begun(statusCode, headers)
    {
      hide Unbroken, Located, Weak;
      if statusCode !in statusCodes {
        CheckpointResponseEnd(headers);
        resume := end.Some?;
        SendStart(statusCode, headers, content);
      } else {
        error := true;
      }
      phase := Receiving;
    }

    /** The last byte, if a first response declares it. */
    method CheckpointResponseEnd(headers: Headers)
      modifies this`end
      ensures end == if old(end).Some? || head || headers.contentLength.None? then old(end)
                     else Some(headers.contentLength.value - 1)
    {
      hide Stitched;
      if end.None? && !head {
        end := if headers.contentLength.Some? then Some(headers.contentLength.value - 1) else None;
      }
    }

    /** The downstream handler gets its response. */
    method SendStart(statusCode: nat, headers: Headers, content: seq<Byte>)
      requires Unbroken() && !headersSent && sent == [] && start <= |content|
      modifies this`headersSent, this`starts, this`body, this`position, this`parts, this`startHeaders
      ensures Unbroken() && headersSent && body == content && position == start
      ensures parts == [Part(statusCode, headers.etag, content, start, start)] && startHeaders == headers
    {
      hide Stitched;
      headersSent := true;
      starts := starts + 1;
      body, position, startHeaders := content, start, headers;
      parts := [Part(statusCode, headers.etag, content, start, start)];
      StitchedFirst(parts[0]);
    }

    /** onResponseData: the attempt carries its body from the position on. */
    method OnResponseData(chunk: seq<Byte>)
      requires Valid() && phase == Receiving
      requires !error ==> position + |chunk| <= |body| && chunk == body[position..position + |chunk|]
      modifies this`start, this`sent, this`position, this`parts
      ensures Valid()
      ensures sent == old(sent) + (if error then [] else chunk)
      ensures start == old(start) + (if error then 0 else |chunk|)
      ensures if error then parts == old(parts)
              else var k := |old(parts)| - 1; k >= 0 && parts == old(parts)[k := old(parts)[k].(to := start)]
      ensures position == old(position) + (if error then 0 else |chunk|)
    {
      hide Stitched, Resumable, Located;
      if error {
        assert sent + [] == sent;
        return;
      }
      ghost var k := |parts| - 1;
      StitchedGrows(parts, sent, chunk);
      start := start + |chunk|;
      sent := sent + chunk;
      position := position + |chunk|;
      parts := parts[k := parts[k].(to := start)];
    }

    /** onResponseEnd: passed on only for a response that is whole, as far as its length is known. If the consumer throws
        there, the request catches it and calls OnResponseError, with the counter back at zero. */
    method OnResponseEnd(consumerThrows: bool) returns (answer: Answer)
      requires Valid() && phase == Receiving
      modifies this`retryCount, this`phase, this`ends, this`throws, this`decisions, this`retries
      ensures Valid() && phase == (if answer.Accepted? && !consumerThrows then Done else Failing)
      ensures answer.Accepted? <==> !error && (end.None? || start == end.value + 1)
      ensures ends == old(ends) + (if answer.Accepted? then 1 else 0)
      ensures throws == old(throws) + (if answer.Accepted? && consumerThrows then 1 else 0)
      ensures answer.Accepted? ==> retryCount == 0
      ensures if answer.Accepted? && consumerThrows then decisions == retries == 0
              else decisions == old(decisions) && retries == old(retries)
    {
      hide Stitched, Unbroken, Resumable, Located, KeptEtag, Begun;
      phase := Failing;
      if error {
        return Threw;
      }
      if end.Some? && start != end.value + 1 {
        return Threw;
      }
      retryCount := 0;
      ends := ends + 1;
      if consumerThrows {
        throws, decisions, retries := throws + 1, 0, 0;
      } else {
        phase := Done;
      }
      return Accepted;
    }

    /** onResponseError: the attempt failed, or one of the methods above threw. It is final if the
        consumer aborted, the request body is used up, or the response cannot be resumed. */
    method OnResponseError(controllerAborted: bool, disturbed: bool)
      requires Valid() && (phase == Dispatched || phase == Receiving || phase == Failing || aborted)
      modifies this`retryCount, this`retryPending, this`phase, this`errors, this`decisions
      ensures Valid() && aborted == old(aborted)
      ensures aborted ==> errors == old(errors) && phase == Done && retryCount == old(retryCount)
      ensures !aborted ==> phase == (if controllerAborted || disturbed || (headersSent && !resume) then Done else Deciding)
      ensures phase == Deciding ==> decisions == old(decisions) + 1 && retryCount == decisions
      ensures phase == Done ==> decisions == old(decisions)
    {
      hide Stitched, Unbroken, Resumable, Located;
      if aborted {
        return;
      }
      if controllerAborted || disturbed || (headersSent && !resume) {
        errors := errors + 1;
        phase := Done;
        return;
      }
      if retryCount - retryCountCheckpoint > 0 {
        retryCount := retryCountCheckpoint + (retryCount - retryCountCheckpoint);
      } else {
        retryCount := retryCount + 1;
      }
      retryPending := true;
      decisions := decisions + 1;
      phase := Deciding;
    }

    /** The policy calls back: with an error to give up, without one to try again. The next attempt asks
        for what is missing. After an abort the call does nothing. */
    method Decided(giveUp: bool, dispatchThrows: bool)
      requires Valid() && (phase == Deciding || aborted)
      modifies this`retryPending, this`retryCountCheckpoint, this`range, this`phase, this`errors, this`retries, this`dispatches
      ensures Valid() && aborted == old(aborted)
      ensures aborted ==> errors == old(errors) && dispatches == old(dispatches) && phase == Done
      ensures !aborted ==> phase == (if giveUp || dispatchThrows then Done else Dispatched)
      ensures phase == Dispatched ==> dispatches == old(dispatches) + 1 && retryCount == decisions == retryCountCheckpoint
                                      && retries == old(retries) + 1
      ensures phase == Done ==> dispatches == old(dispatches) && retries == old(retries)
      ensures !aborted && !giveUp ==> range == (if start != 0 then Some((start, end)) else old(range))
    {
      hide Stitched, Unbroken, Resumable, Located;
      if aborted {
        return;
      }
      if giveUp {
        retryPending := false;
        errors := errors + 1;
        phase := Done;
        return;
      }
      Retry(dispatchThrows);
    }

    /** retry, with the decision behind it. */
    method Retry(dispatchThrows: bool)
      requires Valid() && phase == Deciding
      modifies this`retryPending, this`retryCountCheckpoint, this`range, this`phase, this`errors, this`retries, this`dispatches
      ensures Valid() && phase == (if dispatchThrows then Done else Dispatched)
      ensures if dispatchThrows then dispatches == old(dispatches) && retries == old(retries)
              else dispatches == old(dispatches) + 1 && retryCount == decisions == retryCountCheckpoint && retries == old(retries) + 1
      ensures range == if start != 0 then Some((start, end)) else old(range)
    {
      hide Stitched, Unbroken, Resumable, Located;
      retryPending := false;
      if start != 0 {
        range := Some((start, end));
      }
      retryCountCheckpoint := retryCount;
      if dispatchThrows {
        errors := errors + 1;
        phase := Done;
        return;
      }
      retries, dispatches := retries + 1, dispatches + 1;
      phase := Dispatched;
    }

    /** #onAbort: an abort while the policy decides ends the wait at once. */
    method OnAbort()
      requires Valid()
      modifies this`aborted, this`retryPending, this`phase, this`errors
      ensures Valid()
      ensures if old(retryPending) then aborted && phase == Done && errors == old(errors) + 1
              else aborted == old(aborted) && phase == old(phase) && errors == old(errors)
    {
      hide Stitched, Unbroken, Resumable, Located;
      if !retryPending {
        return;
      }
      aborted := true;
      retryPending := false;
      errors := errors + 1;
      phase := Done;
    }
  }

  datatype RetryOptions = RetryOptions(
    maxRetries: nat, minTimeout: real, maxTimeout: real, timeoutFactor: real,
    methods: Option<set<string>>, statusCodes: set<nat>, errorCodes: set<string>, retryAfter: bool)

  /** `retryAfter` is the Retry-After header in milliseconds, if there is one that can be read. */
  datatype Failure = Failure(code: Option<string>, statusCode: Option<nat>, retryAfter: Option<real>)

  function Power(x: real, n: nat): real {
    if n == 0 then 1.0 else x * Power(x, n - 1)
  }

  function Min(a: real, b: real): real {
    if a <= b then a else b
  }

  /** How long the default policy waits before the retry with this counter. */
  function Delay(failure: Failure, counter: nat, opts: RetryOptions): real
    requires counter >= 1
  {
    var header := if opts.retryAfter then failure.retryAfter else None;
    if header == Some(0.0) then 0.0
    else if header.Some? && header.value > 0.0 then Min(header.value, opts.maxTimeout)
    else Min(Backoff(counter, opts), opts.maxTimeout)
  }

  function Backoff(counter: nat, opts: RetryOptions): real
    requires counter >= 1
  {
    opts.minTimeout * Power(opts.timeoutFactor, counter - 1)
  }

  /** The default policy: the delay before the retry, or none to give up. */
  function DefaultRetry(failure: Failure, method': string, counter: nat, opts: RetryOptions): Option<real>
    requires counter >= 1
  {
    if failure.code.Some? && failure.code.value != "" && failure.code.value != "UND_ERR_REQ_RETRY"
       && failure.code.value !in opts.errorCodes then None
    else if opts.methods.Some? && method' !in opts.methods.value then None
    else if failure.statusCode.Some? && failure.statusCode.value !in opts.statusCodes then None
    else if counter > opts.maxRetries then None
    else Some(Delay(failure, counter, opts))
  }

  /** The policy retries exactly within the count, after an error code that is not listed out, for a method and a status
      that are listed. */
  lemma RetriedIff(failure: Failure, method': string, counter: nat, opts: RetryOptions)
    requires counter >= 1
    ensures DefaultRetry(failure, method', counter, opts).Some? <==>
              && counter <= opts.maxRetries
              && (failure.code.Some? ==> failure.code.value in opts.errorCodes + {"", "UND_ERR_REQ_RETRY"})
              && (opts.methods.Some? ==> method' in opts.methods.value)
              && (failure.statusCode.Some? ==> failure.statusCode.value in opts.statusCodes)
  {
  }

  /** How long it waits: what Retry-After says, as long as that is read and not negative, or else twice as long each
      time for a factor of two, and never longer than maxTimeout. */
  lemma Waits(failure: Failure, counter: nat, opts: RetryOptions)
    requires counter >= 1 && opts.maxTimeout >= 0.0
    ensures opts.retryAfter && failure.retryAfter.Some? && 0.0 <= failure.retryAfter.value <= opts.maxTimeout ==>
              Delay(failure, counter, opts) == failure.retryAfter.value
    ensures opts.retryAfter && failure.retryAfter.Some? && failure.retryAfter.value > opts.maxTimeout ==>
              Delay(failure, counter, opts) == opts.maxTimeout
    ensures !opts.retryAfter || failure.retryAfter.None? || failure.retryAfter.value < 0.0 ==>
              && Delay(failure, counter, opts) <= opts.maxTimeout
              && (counter == 1 && opts.minTimeout <= opts.maxTimeout ==> Delay(failure, 1, opts) == opts.minTimeout)
  {
    assert Power(opts.timeoutFactor, 0) == 1.0;
  }

  /** Every wait is at most maxTimeout. */
  lemma DelayBounded(failure: Failure, method': string, counter: nat, opts: RetryOptions)
    requires counter >= 1 && opts.maxTimeout >= 0.0
    ensures DefaultRetry(failure, method', counter, opts).Some? ==>
              DefaultRetry(failure, method', counter, opts).value <= opts.maxTimeout
  {
  }

  lemma ScaledUp(x: real, f: real)
    requires f >= 1.0 && x >= 0.0
    ensures f * x >= x
  {
    assert (f - 1.0) * x >= 0.0;
  }

  lemma ScaledOrder(x: real, y: real, f: real)
    requires f >= 1.0 && 0.0 <= x <= y
    ensures f * x <= f * y
  {
    assert f * (y - x) >= 0.0;
  }

  lemma MinScaled(x: real, m: real, f: real)
    requires f >= 1.0 && x >= 0.0 && m >= 0.0
    ensures Min(f * x, m) == Min(f * Min(x, m), m) && Min(x, m) <= Min(f * x, m)
  {
    ScaledUp(x, f);
    if x > m {
      ScaledUp(m, f);
      ScaledOrder(m, x, f);
    }
  }

  lemma BackoffStep(counter: nat, opts: RetryOptions)
    requires counter >= 1 && opts.minTimeout >= 0.0 && opts.timeoutFactor >= 1.0
    ensures Backoff(counter + 1, opts) == opts.timeoutFactor * Backoff(counter, opts) && Backoff(counter, opts) >= 0.0
  {
    var f, p := opts.timeoutFactor, Power(opts.timeoutFactor, counter - 1);
    PowerPositive(f, counter - 1);
    assert opts.minTimeout * (f * p) == f * (opts.minTimeout * p);
    assert opts.minTimeout * p >= 0.0;
  }

  /** Without Retry-After each wait is the last one times the factor, up to maxTimeout. */
  lemma BackoffGrows(failure: Failure, counter: nat, opts: RetryOptions)
    requires counter >= 1 && !opts.retryAfter
    requires opts.minTimeout >= 0.0 && opts.timeoutFactor >= 1.0 && opts.maxTimeout >= 0.0
    ensures Delay(failure, counter + 1, opts) == Min(opts.timeoutFactor * Delay(failure, counter, opts), opts.maxTimeout)
    ensures Delay(failure, counter, opts) <= Delay(failure, counter + 1, opts)
  {
    assert Delay(failure, counter, opts) == Min(Backoff(counter, opts), opts.maxTimeout);
    assert Delay(failure, counter + 1, opts) == Min(Backoff(counter + 1, opts), opts.maxTimeout);
    hide Backoff, Min, Delay;
    BackoffStep(counter, opts);
    MinScaled(Backoff(counter, opts), opts.maxTimeout, opts.timeoutFactor);
  }

  lemma {:induction false} PowerPositive(x: real, n: nat)
    requires x >= 1.0
    ensures Power(x, n) >= 1.0
  {
    if n > 0 {
      PowerPositive(x, n - 1);
    }
  }

  /** The budget of a response: maxRetries retries, and as many again each time the consumer throws at the end. */
  ghost predicate WithinBudget(handler: RetryHandler, maxRetries: nat)
    reads handler
  {
    && handler.retries <= maxRetries
    && handler.dispatches <= 1 + maxRetries * handler.throws + handler.retries
  }

  lemma OneMoreBudget(maxRetries: nat, throws: nat)
    ensures maxRetries * (throws + 1) == maxRetries * throws + maxRetries
  {
  }

  /** One event, of those that the state allows. */
  method Step(handler: RetryHandler, method': string, opts: RetryOptions)
    requires handler.Valid() && WithinBudget(handler, opts.maxRetries)
    modifies handler
    ensures handler.Valid() && WithinBudget(handler, opts.maxRetries)
  {
    hide RetryHandler.Unbroken, RetryHandler.OneTerminal, RetryHandler.ResumedOnlyIf, Stitched, Delay;
    var fails: bool, disturbed: bool, consumerAborts: bool := *, *, *;
    match handler.phase
    case Dispatched =>
      var statusCode: nat, headers: Headers, content: seq<Byte> := *, *, *;
      var parsed := ParseRange(headers.contentRange);
      if fails || statusCode < 200 || (parsed.Some? && parsed.value.0 > |content|) {
        handler.OnResponseError(consumerAborts, disturbed);
      } else {
        var _ := handler.OnResponseStart(statusCode, headers, content);
      }
    case Receiving =>
      var n: nat, discarded: seq<Byte>, ended: bool := *, *, *;
      if fails {
        handler.OnResponseError(consumerAborts, disturbed);
      } else if ended {
        OneMoreBudget(opts.maxRetries, handler.throws);
        var _ := handler.OnResponseEnd(disturbed);
      } else if handler.error {
        handler.OnResponseData(discarded);
      } else if handler.position + n <= |handler.body| {
        handler.OnResponseData(handler.body[handler.position..handler.position + n]);
      }
    case Failing =>
      handler.OnResponseError(consumerAborts, disturbed);
    case Deciding =>
      var failure: Failure := *;
      if consumerAborts {
        handler.OnAbort();
      } else {
        handler.Decided(DefaultRetry(failure, method', handler.retryCount, opts).None?, fails);
      }
    case Done =>
      if handler.aborted && fails {
        handler.OnResponseError(consumerAborts, disturbed);
      } else if handler.aborted {
        handler.Decided(disturbed, consumerAborts);
      }
  }

  /** Any run under the default policy, whatever the attempts deliver and however they end. Downstream hears at most one
      start, under a status that is a success or not to be retried. Unless it throws when it hears the end, it hears at
      most one end or error, and at most maxRetries + 1 requests are dispatched; each such throw allows for one more
      end and maxRetries more dispatches. The bytes are stretches of the attempts' bodies, each from where the last
      broke off; where all attempts carry one representation, they are one stretch of it. There is more than one only
      if the first response is resumable. */
  method Run(head: bool, method': string, opts: RetryOptions, ghost representation: seq<Byte>, steps: nat)
      returns (handler: RetryHandler)
    ensures handler.Valid()
    ensures Contiguous(handler.parts) && handler.sent == Joined(handler.parts)
    ensures handler.parts != [] && (forall p :: p in handler.parts ==> p.body == representation) ==>
              && handler.parts[0].from <= handler.start <= |representation|
              && handler.sent == representation[handler.parts[0].from..handler.start]
    ensures |handler.parts| > 1 && (forall p :: p in handler.parts[1..] ==> p.body == representation) ==>
              var first := handler.parts[0];
              && first.from <= first.to <= |first.body| && first.to <= handler.start <= |representation|
              && handler.sent == first.body[first.from..first.to] + representation[first.to..handler.start]
    ensures handler.parts != [] ==> handler.parts[0].statusCode < 300 || handler.parts[0].statusCode !in opts.statusCodes
    ensures |handler.parts| > 1 ==>
              if handler.parts[0].statusCode < 300 then handler.parts[0].statusCode != 206 || handler.startHeaders.contentRange.Bytes?
              else handler.startHeaders.contentLength.Some? && !head
    // A strong etag of the first success is that of every part.
    ensures handler.parts != [] && handler.parts[0].statusCode < 300 && handler.startHeaders.etag.Some?
            && !("W/" <= handler.startHeaders.etag.value)
            && (handler.parts[0].statusCode == 206 ==> handler.startHeaders.contentRange.Bytes?) ==>
              forall p :: p in handler.parts ==> p.etag == handler.startHeaders.etag
    ensures handler.starts <= 1 && handler.ends + handler.errors == handler.throws + if handler.phase == Done then 1 else 0
    ensures handler.phase == Done ==> (handler.ends + handler.errors == 1 <==> handler.throws == 0)
    ensures handler.ends > handler.throws ==> handler.starts == 1 && (handler.end.None? || handler.start == handler.end.value + 1)
    ensures handler.dispatches <= 1 + opts.maxRetries * (1 + handler.throws)
  {
    hide RetryHandler.CountedRetries, Contiguous, Joined;
    handler := new RetryHandler(head, opts.statusCodes);
    for i := 0 to steps
      invariant handler.Valid() && fresh(handler) && handler.head == head && handler.statusCodes == opts.statusCodes
      invariant WithinBudget(handler, opts.maxRetries)
    {
      Step(handler, method', opts);
    }
    OneMoreBudget(opts.maxRetries, handler.throws);
    if handler.parts != [] && forall p :: p in handler.parts ==> p.body == representation {
      OneStretch(handler.parts, representation);
    }
    if |handler.parts| > 1 && forall p :: p in handler.parts[1..] ==> p.body == representation {
      FirstThenRest(handler.parts, representation);
    }
  }

  /** The bytes of two responses are joined under a status that is not a success, whatever that status and its body,
      as long as it is not to be retried and declares its length. The first response breaks off after `first`; the
      second is a success of the same length, its bytes from there on are `second`, and nothing shows that they are
      another response's. */
  method JoinedUnderError(statusCodes: set<nat>, statusCode: nat, etag: Option<string>, other: Option<string>,
                          first: seq<Byte>, rest: seq<Byte>)
      returns (handler: RetryHandler)
    requires 300 <= statusCode && statusCode !in statusCodes && 0 < |first| < |rest|
    ensures handler.starts == 1 && handler.ends == 1 && handler.errors == 0
    ensures |handler.parts| == 2 && handler.parts[0].statusCode == statusCode
    ensures handler.sent == first + rest[|first|..]
  {
    hide Stitched, RetryHandler.CountedRetries, RetryHandler.ResumedOnlyIf;
    var n, k := |rest|, |first|;
    handler := BrokenOff(statusCodes, statusCode, etag, first, n);
    var _ := handler.OnResponseStart(206, Headers(Bytes(k, n - 1, Some(n)), Some(n - k), other), rest);
    assert rest[k..] == rest[k..k + (n - k)];
    handler.OnResponseData(rest[k..]);
    var _ := handler.OnResponseEnd(false);
  }

  /** The first response breaks off short of the length it declared, and its request is sent again. */
  method BrokenOff(statusCodes: set<nat>, statusCode: nat, etag: Option<string>, first: seq<Byte>, length: nat)
      returns (handler: RetryHandler)
    requires statusCode == 200 || (300 <= statusCode && statusCode !in statusCodes)
    requires 0 < |first| < length
    ensures fresh(handler) && handler.Valid() && handler.phase == Dispatched && handler.headersSent
    ensures handler.start == |first| && handler.end == Some(length - 1)
    ensures handler.etag == KeptEtag(statusCode, Headers(Absent, Some(length), etag))
    ensures |handler.parts| == 1 && handler.parts[0].statusCode == statusCode && handler.sent == first && !handler.error
    ensures handler.ends == 0 && handler.errors == 0 && handler.throws == 0
  {
    hide Stitched, KeptEtag, RetryHandler.CountedRetries;
    handler := PassedOn(statusCodes, statusCode, etag, first, length);
    handler.OnResponseError(false, false);
    handler.Decided(false, false);
  }

  method PassedOn(statusCodes: set<nat>, statusCode: nat, etag: Option<string>, first: seq<Byte>, length: nat)
      returns (handler: RetryHandler)
    requires statusCode == 200 || (300 <= statusCode && statusCode !in statusCodes)
    requires 0 < |first| < length
    ensures fresh(handler) && handler.Valid() && handler.phase == Receiving && handler.headersSent && handler.resume
    ensures handler.start == |first| && handler.end == Some(length - 1)
    ensures handler.etag == KeptEtag(statusCode, Headers(Absent, Some(length), etag))
    ensures |handler.parts| == 1 && handler.parts[0].statusCode == statusCode && handler.sent == first && !handler.error
    ensures !handler.aborted && handler.throws == 0
  {
    hide Stitched, KeptEtag, RetryHandler.CountedRetries;
    handler := new RetryHandler(false, statusCodes);
    var _ := handler.OnResponseStart(statusCode, Headers(Absent, Some(length), etag), first);
    assert first == first[0..0 + |first|] && [] + first == first;
    handler.OnResponseData(first);
  }

  /** A 404 whose body breaks off after two of three bytes, and a 206 of another representation: the consumer gets a 404
      with two bytes of the one and one byte of the other. */
  method NotFoundThenPartial() returns (handler: RetryHandler)
    ensures handler.parts != [] && handler.parts[0].statusCode == 404 && handler.ends == 1 && handler.sent == [1, 2, 9]
  {
    handler := JoinedUnderError({500, 502, 503, 504, 429}, 404, Some("a"), Some("b"), [1, 2], [7, 8, 9]);
    assert [1, 2] + [7, 8, 9][2..] == [1, 2, 9];
  }

  /** An empty response is whole, the consumer throws when it hears the end, and the policy gives up: the consumer hears
      an error after the end. */
  method EndThenError() returns (handler: RetryHandler)
    ensures handler.Valid() && handler.phase == Done && handler.ends == 1 && handler.errors == 1
  {
    hide Stitched, RetryHandler.CountedRetries;
    handler := new RetryHandler(false, {});
    var _ := handler.OnResponseStart(200, Headers(Absent, Some(0), None), []);
    var _ := handler.OnResponseEnd(true);
    handler.OnResponseError(false, false);
    handler.Decided(true, false);
  }

  /** The bound on dispatches is reached, for any number of throws: all retries of the budget are used up, the next
      attempt succeeds, the consumer throws, and so on. */
  method BudgetReached(opts: RetryOptions, throws: nat) returns (handler: RetryHandler)
    requires opts.maxRetries >= 1 && opts.methods.None?
    ensures handler.Valid() && handler.throws == throws
    ensures handler.dispatches == 1 + opts.maxRetries * (1 + throws)
  {
    hide Stitched;
    handler := new RetryHandler(false, opts.statusCodes);
    FailAll(handler, opts);
    for i := 0 to throws
      invariant fresh(handler) && Exhausted(handler, opts.maxRetries) && handler.throws == i
    {
      SucceedAndThrow(handler, opts);
      FailAll(handler, opts);
    }
    OneMoreBudget(opts.maxRetries, throws);
  }

  /** Nothing was passed on but empty bodies of unknown length, and the next attempt is under way. */
  ghost predicate Underway(handler: RetryHandler, maxRetries: nat)
    reads handler
  {
    && handler.Valid() && handler.phase == Dispatched && handler.start == 0 && handler.end.None? && handler.etag.None?
    && handler.retries <= maxRetries && handler.dispatches == 1 + maxRetries * handler.throws + handler.retries
    && !handler.aborted && (handler.headersSent ==> handler.resume)
  }

  ghost predicate Exhausted(handler: RetryHandler, maxRetries: nat)
    reads handler
  {
    Underway(handler, maxRetries) && handler.retries == maxRetries
  }

  lemma CountsRetries(handler: RetryHandler, maxRetries: nat)
    requires Underway(handler, maxRetries)
    ensures handler.retryCount == handler.retries <= maxRetries
  {
  }

  /** Attempts fail until the retries are used up. */
  method FailAll(handler: RetryHandler, opts: RetryOptions)
    requires Underway(handler, opts.maxRetries) && opts.methods.None?
    modifies handler
    ensures Exhausted(handler, opts.maxRetries) && handler.throws == old(handler.throws)
  {
    hide Underway;
    CountsRetries(handler, opts.maxRetries);
    while handler.retryCount < opts.maxRetries
      invariant Underway(handler, opts.maxRetries) && handler.throws == old(handler.throws)
      invariant handler.retryCount == handler.retries <= opts.maxRetries
      decreases opts.maxRetries - handler.retryCount
    {
      FailOnce(handler, opts);
      CountsRetries(handler, opts.maxRetries);
    }
  }

  /** What the default policy says to a failure without a code and a status. */
  predicate Retries(counter: nat, opts: RetryOptions)
    requires counter >= 1
  {
    DefaultRetry(Failure(None, None, None), "GET", counter, opts).Some?
  }

  lemma RetriesWithin(counter: nat, opts: RetryOptions)
    requires counter >= 1 && opts.methods.None?
    ensures Retries(counter, opts) <==> counter <= opts.maxRetries
  {
  }

  method FailOnce(handler: RetryHandler, opts: RetryOptions)
    requires Underway(handler, opts.maxRetries) && handler.retries < opts.maxRetries && opts.methods.None?
    modifies handler
    ensures Underway(handler, opts.maxRetries) && handler.throws == old(handler.throws) && handler.retries == old(handler.retries) + 1
  {
    hide Stitched, Retries;
    handler.OnResponseError(false, false);
    RetriesWithin(handler.retryCount, opts);
    handler.Decided(!Retries(handler.retryCount, opts), false);
  }

  method SucceedAndThrow(handler: RetryHandler, opts: RetryOptions)
    requires Exhausted(handler, opts.maxRetries) && opts.maxRetries >= 1 && opts.methods.None?
    modifies handler
    ensures Underway(handler, opts.maxRetries) && handler.throws == old(handler.throws) + 1
  {
    hide Stitched, Retries;
    OneMoreBudget(opts.maxRetries, handler.throws);
    EndWithThrow(handler);
    handler.OnResponseError(false, false);
    RetriesWithin(handler.retryCount, opts);
    handler.Decided(!Retries(handler.retryCount, opts), false);
  }

  method EndWithThrow(handler: RetryHandler)
    requires handler.Valid() && handler.phase == Dispatched && handler.start == 0 && handler.end.None? && handler.etag.None?
    modifies handler
    ensures handler.Valid() && handler.phase == Failing && handler.start == 0 && handler.end.None? && handler.etag.None?
    ensures handler.retries == handler.decisions == 0 && handler.throws == old(handler.throws) + 1
    ensures handler.dispatches == old(handler.dispatches) && handler.headersSent && handler.resume && !handler.aborted
  {
    hide Stitched, RetryHandler.CountedRetries;
    var _ := handler.OnResponseStart(200, Headers(Absent, None, None), []);
    var _ := handler.OnResponseEnd(true);
  }

  /** A success with etag "a" breaks off, and what answers the retry carries the missing bytes of another representation,
      with etag "b": it is refused. */
  method OtherEtag() returns (handler: RetryHandler, answer: Answer)
    ensures answer == Threw && handler.sent == [1, 2] && |handler.parts| == 1
  {
    hide Stitched, RetryHandler.CountedRetries;
    handler := BrokenOff({}, 200, Some("a"), [1, 2], 5);
    answer := handler.OnResponseStart(206, Headers(Bytes(2, 4, Some(5)), Some(3), Some("b")), [6, 7, 8, 9, 10]);
  }
}
