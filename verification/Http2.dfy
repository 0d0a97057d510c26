/** The HTTP/2 driver of lib/dispatcher/client-h2.js over the request queue: opening streams, their
completion, the REFUSED_STREAM retry, GOAWAY and the closed socket. Handlers of the original end by
resuming the client; here that is the separate method Resume, which may follow any of them. */
module Http2 {
  import opened ClientQueue
  import opened Wrappers

  const MAX_GOAWAY_REPLAY_ATTEMPTS := 1

  /** A stream the peer promised to process: section 6.8 of RFC 9113. Without an integer lastStreamID
      every opened stream counts. */
  predicate Accepted(id: Option<nat>, last: Option<nat>) {
    id.Some? && (last.Some? ==> id.value <= last.value)
  }

  /** How many requests a GOAWAY leaves running: getGoAwayPendingIdx looks for the first one that is
      not accepted. */
  function Cut(ids: seq<Option<nat>>, last: Option<nat>): (k: nat)
    ensures k <= |ids|
    ensures forall i :: 0 <= i < k ==> Accepted(ids[i], last)
    ensures k < |ids| ==> !Accepted(ids[k], last)
  {
    if ids == [] || !Accepted(ids[0], last) then 0 else 1 + Cut(ids[1..], last)
  }

  /** The cut keeps exactly what the peer accepted. */
  ghost predicate CutExact(ids: seq<Option<nat>>, last: Option<nat>) {
    forall i :: 0 <= i < |ids| ==> (i < Cut(ids, last) <==> Accepted(ids[i], last))
  }

  /** One pass that stops at the first refused stream is exact whatever the frame says if and only if
      the ids never fall and none is missing before a present one. */
  lemma CutExactIffRising(ids: seq<Option<nat>>)
    ensures (forall last :: CutExact(ids, last)) <==>
            (forall i, j :: 0 <= i < j < |ids| && ids[j].Some? ==> ids[i].Some? && ids[i].value <= ids[j].value)
  {
    if forall last :: CutExact(ids, last) {
      forall i, j | 0 <= i < j < |ids| && ids[j].Some?
        ensures ids[i].Some? && ids[i].value <= ids[j].value
      {
        assert CutExact(ids, ids[j]);
        assert Accepted(ids[j], ids[j]);
      }
    }
    if forall i, j :: 0 <= i < j < |ids| && ids[j].Some? ==> ids[i].Some? && ids[i].value <= ids[j].value {
      forall last
        ensures CutExact(ids, last)
      {
        var k := Cut(ids, last);
        if k < |ids| {
          assert !Accepted(ids[k], last);
        }
      }
    }
  }

  /** On one session, with ids rising along running as they do, the cut is exact for every frame if and only if no
      request without a stream stands before one that has a stream. */
  lemma CutOfOneSession(running: seq<Request>, session: nat)
    requires InOrder(running) && (forall r :: r in running && r.streamId.Some? ==> r.streamSession == session)
    ensures (forall last :: CutExact(StreamIds(running), last)) <==>
            (forall i, j :: 0 <= i < j < |running| && running[j].streamId.Some? ==> running[i].streamId.Some?)
    ensures Whole(running) ==> forall last :: CutExact(StreamIds(running), last)
  {
    var ids := StreamIds(running);
    CutExactIffRising(ids);
    assert Whole(running) ==> forall i :: 0 <= i < |running| ==> running[i] in running && running[i].streamId.Some?;
    if forall i, j :: 0 <= i < j < |running| && running[j].streamId.Some? ==> running[i].streamId.Some? {
      forall i, j | 0 <= i < j < |ids| && ids[j].Some?
        ensures ids[i].Some? && ids[i].value <= ids[j].value
      {
        assert Before(running[i], running[j]) && running[i] in running && running[j] in running;
      }
    } else {
      var i, j :| 0 <= i < j < |running| && running[j].streamId.Some? && !running[i].streamId.Some?;
      assert ids[j].Some? && ids[i].None?;
    }
  }

  lemma ExactWhenWhole(running: seq<Request>, session: nat, last: Option<nat>)
    requires InOrder(running)
    ensures Whole(running) && (forall r :: r in running ==> r.streamSession == session) ==> CutExact(StreamIds(running), last)
  {
    if Whole(running) && (forall r :: r in running ==> r.streamSession == session) {
      CutOfOneSession(running, session);
    }
  }

  /** Two sessions at once: stream 7 of an old session runs ahead of stream 1 of a new one. A GOAWAY
      with lastStreamID 5 leaves nothing running although the peer accepted stream 1. */
  lemma CutAcrossSessions()
    ensures Cut([Some(7), Some(1)], Some(5)) == 0 && Accepted(Some(1), Some(5))
    ensures !CutExact([Some(7), Some(1)], Some(5))
  {
    var ids: seq<Option<nat>> := [Some(7), Some(1)];
    assert Accepted(ids[1], Some(5));
  }

  class Session {
    /** Sessions of one client are numbered in the order they were opened. */
    const index: nat
    var receivedGoAway: bool
    var destroyed: bool
    var remoteSettings: bool
    var connectProtocol: bool
    var nextStreamId: nat

    constructor (index: nat)
      ensures this.index == index && !receivedGoAway && !destroyed && nextStreamId == 1 && !remoteSettings && !connectProtocol
    {
      this.index := index;
      receivedGoAway, destroyed, remoteSettings, connectProtocol, nextStreamId := false, false, false, false, 1;
    }
  }

  /** What becomes of a write: a stream opens; the request is refused before one could; the session turns out invalid
      or gone away, or has to be destroyed; or a stream opens and a callback run by the write aborts the request, with
      an error that is recoverable or not. */
  datatype WriteOutcome = Opened | Refused | SessionInvalid | SessionBroken | AbortedInside(recoverable: bool)

  function StreamIds(s: seq<Request>): (ids: seq<Option<nat>>)
    ensures |ids| == |s| && forall i :: 0 <= i < |s| ==> ids[i] == s[i].streamId
  {
    seq(|s|, i requires 0 <= i < |s| => s[i].streamId)
  }

  /** `a`'s stream was opened before `b`'s: on an earlier session, or under a smaller id of the same. */
  ghost predicate Before(a: Request, b: Request) {
    && a.streamId.Some? && b.streamId.Some?
    && (a.streamSession < b.streamSession
        || (a.streamSession == b.streamSession && a.streamId.value < b.streamId.value))
  }

  /** Those of `s` that have a stream opened it in this order. */
  ghost predicate InOrder(s: seq<Request>) {
    forall i, j :: 0 <= i < j < |s| && s[i].streamId.Some? && s[j].streamId.Some? ==> Before(s[i], s[j])
  }

  /** Every caller still waits and every request has its stream. */
  ghost predicate Whole(running: seq<Request>) {
    forall r :: r in running ==> r.Live() && r.streamId.Some?
  }

  lemma WholePrefix(running: seq<Request>, k: nat)
    requires k <= |running|
    ensures Whole(running) ==> Whole(running[..k])
  {
  }

  lemma InOrderPrefix(s: seq<Request>, k: nat)
    requires InOrder(s) && k <= |s|
    ensures InOrder(s[..k])
  {
  }

  lemma InOrderSame(s: seq<Request>, k: nat, r: Request)
    requires InOrder(s) && k < |s| && r.streamId == s[k].streamId && r.streamSession == s[k].streamSession
    ensures InOrder(s[k := r])
  {
  }

  lemma InOrderRemoved(s: seq<Request>, k: nat)
    requires InOrder(s)
    ensures InOrder(Removed(s, k))
  {
  }

  /** Every refusal that moved a request back is paid for out of one of its two budgets. */
  ghost predicate Budgeted(r: Request) {
    r.refusals <= (if r.goAwayReplayAttempts > 0 then 1 else 0) + (if r.refusedStreamRetry then 1 else 0)
  }

  /** A request bound to stream `id` of session `session`. */
  function Bound(r: Request, session: nat, id: nat): Request {
    r.(streamId := Some(id), streamSession := session, responseReceived := false, attached := true, writes := r.writes + 1)
  }

  /** A request whose stream was opened, and that was aborted before the write returned. */
  function Stranded(r: Request): Request {
    r.(streamId := None, responseReceived := false, writes := r.writes + 1).Failed()
  }

  /** A write that opens no stream leaves the request with a new abort function. */
  function Detached(r: Request): Request {
    r.(attached := false)
  }

  /** What the writes of one resume came to, request by request. */
  datatype Written = Streamed(session: nat, id: nat) | Strands | Unwritten

  /** The session the requests are written on, and whether its settings came. */
  datatype Peer = NoPeer | Peer(session: nat, settings: bool)

  /** Each request that was not aborted became what its turn's write came to, on a session, and an upgrade was sent only
      after the peer's settings. */
  ghost predicate Followed(pending: seq<Request>, writes: seq<Written>, outcomes: seq<WriteOutcome>, peer: Peer, first: nat) {
    writes == [] ||
    (var k := |writes| - 1;
     && k < |pending| && Followed(pending, writes[..k], outcomes, peer, first)
     && FollowedAt(pending[k], writes[k], OutcomeAt(outcomes, k), peer, first + 2 * Streams(writes[..k])))
  }

  ghost predicate FollowedAt(r: Request, write: Written, outcome: WriteOutcome, peer: Peer, id: nat) {
    if r.aborted then write.Unwritten?
    else
      && peer.Peer? && Became(outcome, write, peer.session, id)
      && (!write.Unwritten? && r.upgrade ==> peer.settings)
  }

  /** What the turn makes of the request at the front of pending if it is not aborted. */
  ghost predicate Became(outcome: WriteOutcome, write: Written, session: nat, id: nat) {
    match outcome
    case Opened => write == Streamed(session, id)
    case Refused => write == Unwritten
    case SessionBroken => write == Unwritten
    case SessionInvalid => false
    case AbortedInside(_) => write == Strands
  }

  lemma FollowedMore(pending: seq<Request>, writes: seq<Written>, outcomes: seq<WriteOutcome>, peer: Peer, first: nat, next: Written)
    requires Followed(pending, writes, outcomes, peer, first) && |writes| < |pending|
    requires var k := |writes|; FollowedAt(pending[k], next, OutcomeAt(outcomes, k), peer, first + 2 * Streams(writes))
    ensures Followed(pending, writes + [next], outcomes, peer, first)
    ensures Streams(writes + [next]) == Streams(writes) + if next.Unwritten? then 0 else 1
  {
    assert (writes + [next])[..|writes|] == writes;
  }

  lemma {:induction false} StrandsAsked(pending: seq<Request>, writes: seq<Written>, outcomes: seq<WriteOutcome>, peer: Peer, first: nat)
    requires Followed(pending, writes, outcomes, peer, first)
    requires forall o :: o in outcomes ==> !o.AbortedInside?
    ensures forall w :: w in writes ==> !w.Strands?
  {
    if writes != [] {
      StrandsAsked(pending, writes[..|writes| - 1], outcomes, peer, first);
    }
  }

  /** How many of them opened a stream. */
  ghost function Streams(writes: seq<Written>): nat {
    if writes == [] then 0 else Streams(writes[..|writes| - 1]) + if writes[|writes| - 1].Unwritten? then 0 else 1
  }

  function OutcomeAt(outcomes: seq<WriteOutcome>, k: nat): WriteOutcome {
    if k < |outcomes| then outcomes[k] else Opened
  }

  /** The requests of `s` that run after those writes, in order. */
  function Opening(s: seq<Request>, writes: seq<Written>): seq<Request>
    requires |s| == |writes|
  {
    if s == [] then []
    else
      var k := |s| - 1;
      Opening(s[..k], writes[..k]) + OpenedBy(s[k], writes[k])
  }

  function OpenedBy(r: Request, write: Written): seq<Request> {
    match write
    case Streamed(session, id) => [Bound(r, session, id)]
    case Strands => [Stranded(r)]
    case Unwritten => []
  }

  /** The others, failed. */
  function Failing(s: seq<Request>, writes: seq<Written>): seq<Request>
    requires |s| == |writes|
  {
    if s == [] then []
    else
      var k := |s| - 1;
      Failing(s[..k], writes[..k]) + FailedBy(s[k], writes[k])
  }

  function FailedBy(r: Request, write: Written): seq<Request> {
    if write.Unwritten? then [r.Failed()] else []
  }

  /** The same requests in the same order; the first may have got a new abort function. */
  ghost predicate SameButHead(a: seq<Request>, b: seq<Request>) {
    && |a| == |b|
    && (forall i :: 1 <= i < |a| ==> a[i] == b[i])
    && (a != [] ==> a[0] == b[0] || a[0] == Detached(b[0]))
  }

  class Driver {
    const client: Client
    var session: Session?
    /** How many sessions were opened. */
    var sessions: nat
    var maxConcurrentStreams: Option<nat>
    const pipelining: nat
    /** kResuming is left at 2: a resume threw, and none does anything any more. */
    var stuck: bool
    /** How many times a socket closed under running requests. */
    ghost var closes: nat

    constructor (pipelining: nat)
      ensures Valid() && fresh(client) && session == null && sessions == closes == 0 && this.pipelining == pipelining
      ensures client.running == client.pending == client.settled == [] && client.dispatched == 0
    {
      client := new Client();
      this.pipelining := pipelining;
      session, sessions, maxConcurrentStreams, stuck, closes := null, 0, None, false, 0;
    }

    ghost predicate Valid()
      reads this, client, session
    {
      client.Valid() && Tracked() && !stuck
    }

    ghost predicate Tracked()
      reads this, client, session
    {
      && InOrder(client.running)
      && (forall r :: r in client.running ==> Runs(r))
      && (forall r :: r in client.pending ==> Waits(r))
      && (forall r :: r in client.settled ==> Spent(r))
      && (session != null ==> session.index == sessions - 1)
    }

    /** A running request is live and bound to a stream of a known session, below that session's next id, or it was
        aborted inside its write and has none. Every stream opened for it before the last one was given up to a refusal
        or to a closed socket. */
    ghost predicate Runs(r: Request)
      reads this, session
    {
      && !r.completed && (r.streamId.Some? <==> !r.aborted) && (r.aborted ==> !r.attached)
      && (r.streamId.Some? ==>
            && r.streamSession < sessions
            && (session != null && r.streamSession == session.index ==> r.streamId.value < session.nextStreamId))
      && Spent(r)
    }

    /** Within its budgets, counting the last stream opened for it. */
    ghost predicate Spent(r: Request)
      reads `closes
    {
      Budgeted(r) && r.writes <= 1 + r.refusals + closes
    }

    ghost predicate Waits(r: Request)
      reads this
    {
      !r.completed && (r.aborted ==> !r.attached) && Budgeted(r) && r.writes <= r.refusals + closes
    }

    method Dispatch(request: Request)
      requires Valid()
      requires request.Fresh() && request.id == client.dispatched
      modifies client`queue, client`pending, client`dispatched
      ensures Valid()
      ensures client.pending == old(client.pending) + [request] && client.dispatched == old(client.dispatched) + 1
    {
      client.Dispatch(request);
    }

    method Connect()
      requires Valid() && session == null
      modifies this`session, this`sessions
      ensures Valid() && session != null && fresh(session)
      ensures session.index == old(sessions) && session.nextStreamId == 1 && !session.receivedGoAway && !session.destroyed
      ensures !session.remoteSettings && !session.connectProtocol && sessions == old(sessions) + 1
    {
      session := new Session(sessions);
      sessions := sessions + 1;
    }

    /** onHttp2RemoteSettings. Extended CONNECT must not be withdrawn; the error for it is informational, and onError
        does nothing with one. */
    method RemoteSettings(maxConcurrentStreams: Option<nat>, enableConnectProtocol: Option<bool>)
      requires Valid()
      modifies this`maxConcurrentStreams, client`queue, client`pending, client`settled
      modifies (if session == null then {} else {session})`remoteSettings, (if session == null then {} else {session})`connectProtocol
      ensures Valid()
      ensures session != null ==>
                && session.remoteSettings
                && session.connectProtocol ==
                   if enableConnectProtocol.None? || old(session.remoteSettings && session.connectProtocol) then old(session.connectProtocol)
                   else enableConnectProtocol.value
      ensures client.running == old(client.running) && client.pending == old(client.pending) && client.settled == old(client.settled)
      ensures this.maxConcurrentStreams == if maxConcurrentStreams.Some? then maxConcurrentStreams else old(this.maxConcurrentStreams)
    {
      if maxConcurrentStreams.Some? {
        this.maxConcurrentStreams := maxConcurrentStreams;
      }
      if session != null {
        if session.remoteSettings && session.connectProtocol && enableConnectProtocol == Some(false) {
          RaiseError(true);
          return;
        }
        session.connectProtocol := if enableConnectProtocol.Some? then enableConnectProtocol.value else session.connectProtocol;
        session.remoteSettings := true;
      }
    }

    /** An error of the session, the socket, a ping or the settings reaches onError: with nothing running, one that is
        not recoverable fails every waiting request. */
    method RaiseError(recoverable: bool)
      requires Valid()
      modifies client`queue, client`pending, client`settled
      ensures Valid()
      ensures if client.running == [] && !recoverable
              then client.pending == [] && client.settled == old(client.settled) + AllFailed(old(client.pending))
              else client.pending == old(client.pending) && client.settled == old(client.settled)
    {
      hide Conserved;
      ghost var rest := client.pending;
      assert forall i :: 0 <= i < |rest| ==> rest[i] in rest && Waits(rest[i]);
      client.OnError(recoverable);
    }

    /** getGoAwayPendingIdx */
    method GetGoAwayPendingIdx(last: Option<nat>) returns (index: nat)
      requires client.Valid()
      ensures index == client.runningIdx + Cut(StreamIds(client.running), last)
    {
      ghost var ids := StreamIds(client.running);
      index := client.runningIdx;
      while index < client.pendingIdx
        invariant client.runningIdx <= index <= client.pendingIdx
        invariant forall i :: 0 <= i < index - client.runningIdx ==> Accepted(ids[i], last)
      {
        assert client.queue[index] == client.queue[client.runningIdx..][index - client.runningIdx];
        var request := client.queue[index].value;
        if !Accepted(request.streamId, last) {
          return;
        }
        index := index + 1;
      }
    }

    /** getMaxConcurrent(client) || 1 */
    function Ceiling(): nat
      reads this`session, this`maxConcurrentStreams
    {
      var ceiling := if session == null then pipelining else if maxConcurrentStreams.Some? then maxConcurrentStreams.value else 1;
      if ceiling == 0 then 1 else ceiling
    }

    predicate Full()
      requires client.runningIdx <= client.pendingIdx
      reads this`session, this`maxConcurrentStreams, client`runningIdx, client`pendingIdx
    {
      client.pendingIdx - client.runningIdx >= Ceiling()
    }

    /** The session's busy(request). */
    predicate Busy(request: Request)
      requires client.Valid() && session != null
      reads this, client, session
    {
      var running := client.pendingIdx - client.runningIdx;
      || (!session.remoteSettings && running > 0)
      || (maxConcurrentStreams.Some? && running >= maxConcurrentStreams.value)
      || (request.upgrade && !session.remoteSettings)
    }

    /** The request at the front of pending is failed and dropped. */
    method FailPending()
      requires Valid() && client.pending != []
      modifies client`queue, client`running, client`pending, client`settled
      ensures Valid() && client.running == old(client.running)
      ensures client.pending == old(client.pending)[1..]
      ensures client.settled == old(client.settled) + [old(client.pending)[0].Failed()]
    {
      hide Conserved;
      assert Waits(client.pending[0]) && Budgeted(client.pending[0].Failed());
      client.FailPending();
    }

    lemma HeadOfPending()
      requires Valid() && client.pending != []
      ensures client.pendingIdx < |client.queue| && client.queue[client.pendingIdx] == Some(client.pending[0])
    {
      assert client.queue[client.pendingIdx] == client.queue[client.runningIdx..][|client.running|];
    }

    /** openStream succeeded: the stream gets the session's next id and the request is bound to it. */
    method OpenStream()
      requires Valid() && session != null && client.pending != [] && client.pending[0].Live()
      modifies session`nextStreamId, client`queue, client`pendingIdx, client`running, client`pending
      ensures Valid()
      ensures client.pending == old(client.pending)[1..]
      ensures client.running == old(client.running) + [Bound(old(client.pending)[0], session.index, old(session.nextStreamId))]
      ensures session.nextStreamId == old(session.nextStreamId) + 2
    {
      hide Conserved;
      HeadOfPending();
      var bound := Bound(client.queue[client.pendingIdx].value, session.index, session.nextStreamId);
      assert Waits(client.pending[0]);
      assert forall r :: r in client.running ==> Runs(r) && (r.streamId.Some? ==> Before(r, bound));
      client.Update(client.pendingIdx, bound);
      session.nextStreamId := session.nextStreamId + 2;
      assert Runs(bound);
      client.Advance();
    }

    /** A stream opens, and a callback run by the write aborts the request, which still stands at the pending index:
        onError runs, completion does not find the request running, and the write then moves the index over it. If
        nothing else runs and the error is not recoverable, onError has emptied the queue, and the index passes its end.
        Otherwise the request runs, neither live nor bound to a stream. */
    method AbortInside(recoverable: bool) returns (broken: bool)
      requires Valid() && session != null && client.pending != [] && client.pending[0].Live()
      modifies session`nextStreamId, client`queue, client`runningIdx, client`pendingIdx
      modifies client`running, client`pending, client`settled
      ensures broken <==> old(client.running) == [] && !recoverable
      ensures client.Sectioned() <==> !broken
      ensures Tracked() && Conserved(client.running, client.pending, client.settled, client.dispatched)
      ensures (Valid() <==> !broken) && session.nextStreamId == old(session.nextStreamId) + 2
      ensures !broken ==> !Whole(client.running)
      ensures !broken ==>
                && client.running == old(client.running) + [Stranded(old(client.pending)[0])]
                && client.pending == old(client.pending)[1..] && client.settled == old(client.settled)
      ensures broken ==>
                && client.running == [] && client.pending == [] && client.pendingIdx == client.runningIdx + 1 == |client.queue| + 1
                && client.settled == old(client.settled) + AllFailed([Stranded(old(client.pending)[0])] + old(client.pending)[1..])
    {
      hide Conserved, InOrder, Runs, Waits, Spent;
      StrandHead();
      RunsStranded();
      client.OnError(recoverable);
      if client.pendingIdx < |client.queue| {
        client.Advance();
        assert client.running[|client.running| - 1] in client.running;
        return false;
      }
      client.Overshoot();
      return true;
    }

    /** The stream opens, and the request is marked aborted where it stands. */
    method StrandHead()
      requires Valid() && session != null && client.pending != [] && client.pending[0].Live()
      modifies session`nextStreamId, client`queue, client`running, client`pending
      ensures client.Valid() && client.running == old(client.running)
      ensures client.pending == [Stranded(old(client.pending)[0])] + old(client.pending)[1..]
      ensures TrackedBehindHead() && session.nextStreamId == old(session.nextStreamId) + 2
    {
      hide Conserved;
      HeadOfPending();
      assert Waits(client.pending[0]) && forall r :: r in client.pending ==> Waits(r);
      client.Update(client.pendingIdx, Stranded(client.queue[client.pendingIdx].value));
      session.nextStreamId := session.nextStreamId + 2;
    }

    /** Tracked, but for the front of pending, which is as if it ran. */
    ghost predicate TrackedBehindHead()
      reads this, client, session
    {
      && InOrder(client.running) && (forall r :: r in client.running ==> Runs(r))
      && client.pending != [] && client.pending[0].streamId.None? && Runs(client.pending[0])
      && (forall r :: r in client.pending[1..] ==> Waits(r))
      && (forall r :: r in client.settled ==> Spent(r))
      && (session != null ==> session.index == sessions - 1)
    }

    lemma RunsStranded()
      requires TrackedBehindHead()
      ensures InOrder(client.running + [client.pending[0]])
      ensures forall r :: r in AllFailed(client.pending) ==> Spent(r)
    {
      ghost var rest := client.pending;
      forall r | r in AllFailed(rest)
        ensures Spent(r)
      {
        var i :| 0 <= i < |rest| && AllFailed(rest)[i] == r;
        assert r == rest[i].Failed() && (i == 0 ==> Spent(rest[i])) && (i > 0 ==> rest[i] == rest[1..][i - 1] && Waits(rest[i]));
      }
    }

    /** Nothing more can be sent: nothing waits; as many run as may, which is one at least; or the first request still
        waits for its answer, and there is no live session, or the peer's settings have not come and something runs or
        the request is an upgrade, or the peer takes no streams at all. */
    ghost predicate Halts()
      reads this`session, this`maxConcurrentStreams, session, client`running, client`pending
    {
      var n := |client.running|;
      || client.pending == []
      || (session == null && n >= 1 && n >= pipelining)
      || (session != null && n >= 1 && (maxConcurrentStreams.Some? ==> n >= maxConcurrentStreams.value))
      || (!client.pending[0].aborted
          && (|| session == null || session.destroyed
              || (!session.remoteSettings && (n > 0 || client.pending[0].upgrade))
              || maxConcurrentStreams == Some(0)))
    }

    /** One turn of _resume's loop, with what its write comes to if it makes one: it stops, exactly if nothing more can be
        sent, or consumes the request at the front of pending, or finds the session invalid and goes round again, or
        breaks the queue. */
    method Turn(outcome: WriteOutcome) returns (stop: bool, consumed: bool, ghost write: Written, broken: bool)
      requires Valid()
      modifies this`session, (if session == null then {} else {session})`destroyed, (if session == null then {} else {session})`nextStreamId
      modifies client`queue, client`runningIdx, client`pendingIdx
      modifies client`running, client`pending, client`settled
      ensures !broken ==> Valid()
      ensures stop && !broken <==> old(Halts())
      ensures broken <==> !old(Halts()) && !old(client.pending)[0].aborted && outcome == AbortedInside(false) && old(client.running) == []
      ensures broken ==> stop && !consumed && Broken()
      ensures consumed <==> !stop && (old(client.pending)[0].aborted || outcome != SessionInvalid)
      ensures if !stop && !consumed then old(session) != null && session == null else session == old(session)
      ensures !stop && !consumed ==> client.pending != [] && !client.pending[0].attached
      ensures !consumed && !broken ==> client.running == old(client.running) && client.settled == old(client.settled)
                                       && SameButHead(client.pending, old(client.pending))
      ensures stop && !broken ==> client.pending == old(client.pending)
      ensures consumed ==>
                var r := old(client.pending)[0];
                && client.pending == old(client.pending)[1..]
                && client.running == old(client.running) + OpenedBy(r, write)
                && client.settled == old(client.settled) + FailedBy(r, write)
                && (if r.aborted then write == Unwritten
                    else session != null && Became(outcome, write, session.index, old(session.nextStreamId)))
      ensures old(session) != null ==>
                && old(session).nextStreamId == old(session.nextStreamId) + (if broken || (consumed && !write.Unwritten?) then 2 else 0)
                && old(session).destroyed == (old(session.destroyed)
                     || (consumed && !old(client.pending)[0].aborted && outcome == SessionBroken))
    {
      hide Conserved;
      write, broken := Unwritten, false;
      if client.pendingIdx == |client.queue| || Full() {
        return true, false, Unwritten, false;
      }
      HeadOfPending();
      var request := client.queue[client.pendingIdx].value;
      assert Waits(request);
      if request.aborted {
        Drop();
        return false, true, Unwritten, false;
      }
      if session == null || session.destroyed || Busy(request) {
        return true, false, Unwritten, false; // connecting, or waiting
      }
      match outcome {
        case Opened =>
          write := Streamed(session.index, session.nextStreamId);
          OpenStream();
          return false, true, write, false;
        case Refused =>
          FailPending();
          return false, true, Unwritten, false;
        case SessionBroken =>
          session.destroyed := true;
          FailPending();
          return false, true, Unwritten, false;
        case SessionInvalid =>
          DetachHead();
          session := null;
          client.RequeueThenDrop();
          return false, false, Unwritten, false;
        case AbortedInside(recoverable) =>
          broken := AbortInside(recoverable);
          return broken, !broken, Strands, broken;
      }
    }

    /** The queue after a write that emptied it and still moved the pending index: every caller has heard an error, and
        the index is past the end. One request counts as running. */
    ghost predicate Broken()
      reads this, client, session
    {
      && Tracked() && Conserved(client.running, client.pending, client.settled, client.dispatched)
      && client.running == [] && client.pending == [] && client.pendingIdx == client.runningIdx + 1 == |client.queue| + 1
    }

    ghost predicate SeveralMayRun()
      reads this`session, this`maxConcurrentStreams
    {
      if session == null then pipelining > 1 else maxConcurrentStreams.Some? && maxConcurrentStreams.value > 1
    }

    /** The turn after that: the number of pending requests is -1, not zero, so unless one running request is as many as
        there may be, the slot at the pending index is read; it is undefined, not null, and reading `aborted` of it
        throws. */
    method TurnAtBreak()
      requires Broken()
      modifies this`stuck
      ensures Broken() && (stuck <==> SeveralMayRun())
    {
      stuck := client.pendingIdx != |client.queue| && !Full();
    }

    /** An aborted request at the front of pending leaves the queue. */
    method Drop()
      requires Valid() && client.pending != [] && client.pending[0].aborted
      modifies client`queue, client`pending, client`settled
      ensures Valid()
      ensures client.pending == old(client.pending)[1..]
      ensures client.settled == old(client.settled) + [old(client.pending)[0].Failed()]
    {
      hide Conserved;
      assert Waits(client.pending[0]);
      client.DropPending();
    }

    /** A write begins: the request at the front of pending gets a new abort function. */
    method DetachHead()
      requires Valid() && client.pending != []
      modifies client`queue, client`running, client`pending
      ensures Valid() && client.running == old(client.running)
      ensures client.pending == old(client.pending)[0 := Detached(old(client.pending)[0])]
    {
      hide Conserved;
      HeadOfPending();
      assert Waits(client.pending[0]) && Waits(Detached(client.pending[0]));
      client.Update(client.pendingIdx, Detached(client.queue[client.pendingIdx].value));
    }

    /** _resume, where the write of the k-th turn comes to outcomes[k], or opens its stream if that is not given. It
        takes |writes| requests off the front of pending, until nothing more can be sent: those that run do so in order,
        behind the others; the rest are failed and gone. */
    method ResumeLoop(outcomes: seq<WriteOutcome>) returns (ghost writes: seq<Written>, broken: bool)
      requires Valid()
      modifies this`session, this`stuck, (if session == null then {} else {session})`destroyed, (if session == null then {} else {session})`nextStreamId
      modifies client`queue, client`runningIdx, client`pendingIdx, client`running, client`pending, client`settled
      ensures if broken then Broken() && (stuck <==> SeveralMayRun()) && AbortedInside(false) in outcomes && old(client.running) == []
              else Valid() && Halts() && Resumed(old(client.running), old(client.pending), old(client.settled), writes)
      ensures !broken ==> Sent(old(client.running), old(client.pending), writes, outcomes, old(session), old(NextId()))
      ensures session == old(session) || (session == null && SessionInvalid in outcomes)
      ensures old(session) != null ==> old(session).destroyed == old(session.destroyed) || SessionBroken in outcomes
    {
      writes, broken := [], false;
      ghost var running, pending, settled, s, first := client.running, client.pending, client.settled, session, NextId();
      ResumedNot(running, pending, settled);
      var stop, turn := false, 0;
      while !stop
        invariant !broken ==> Valid() && Resumed(running, pending, settled, writes) && Sent(running, pending, writes, outcomes, s, first)
        invariant !broken && stop ==> Halts()
        invariant !stop && session != null ==> turn == |writes|
        invariant broken ==> stop && Broken() && AbortedInside(false) in outcomes && running == []
        invariant session == s || (session == null && SessionInvalid in outcomes)
        invariant s != null ==> s.destroyed == old(session.destroyed) || SessionBroken in outcomes
        decreases !stop, |pending| - |writes|, session != null
      {
        var outcome := OutcomeAt(outcomes, turn);
        assert outcome != Opened ==> outcome in outcomes;
        stop, writes, broken := NextTurn(outcome, running, pending, settled, writes, outcomes, s, first);
        turn := turn + 1;
      }
      if broken {
        TurnAtBreak();
      }
    }

    ghost function NextId(): nat
      reads this`session, session
    {
      if session == null then 1 else session.nextStreamId
    }

    /** A turn, seen from the start of the loop. */
    method NextTurn(outcome: WriteOutcome, ghost running: seq<Request>, ghost pending: seq<Request>, ghost settled: seq<Request>,
                    ghost writes: seq<Written>, ghost outcomes: seq<WriteOutcome>, ghost s: Session?, ghost first: nat)
        returns (stop: bool, ghost writes': seq<Written>, broken: bool)
      requires Valid() && Resumed(running, pending, settled, writes) && Sent(running, pending, writes, outcomes, s, first)
      requires session != null ==> session == s && outcome == OutcomeAt(outcomes, |writes|)
      modifies this`session, (if session == null then {} else {session})`destroyed, (if session == null then {} else {session})`nextStreamId
      modifies client`queue, client`runningIdx, client`pendingIdx, client`running, client`pending, client`settled
      ensures !broken ==> Valid() && Resumed(running, pending, settled, writes') && Sent(running, pending, writes', outcomes, s, first)
      ensures stop && !broken ==> Halts()
      ensures broken ==> stop && Broken() && outcome == AbortedInside(false) && running == []
      ensures session == old(session) || (session == null && outcome == SessionInvalid)
      ensures !stop && session != null ==> |writes'| == |writes| + 1
      ensures !stop ==> |writes| < |writes'| || (|writes| == |writes'| && session == null && old(session) != null)
      ensures s != null ==> s.destroyed == old(s.destroyed) || (session != null && outcome == SessionBroken)
    {
      hide Conserved, Opening, Failing, Followed, OutcomeAt, Streams, SameButHead, Broken, InOrder;
      var consumed;
      ghost var write;
      ghost var rest := client.pending;
      HeadAndTail(rest, pending, |writes|);
      stop, consumed, write, broken := Turn(outcome);
      writes' := writes;
      if consumed {
        SameHead(rest[0], pending[|writes|], write);
        FollowedMore(pending, writes, outcomes, if s == null then NoPeer else Peer(s.index, s.remoteSettings), first, write);
        Extend(running, settled, pending, writes, write);
        writes' := writes + [write];
      }
    }

    /** What was sent: the requests became what the turns' writes came to, under the ids of session `s` from `first` on;
        and where any was opened, there were no more than the peer takes, and only one without its settings. */
    ghost predicate Sent(running: seq<Request>, pending: seq<Request>, writes: seq<Written>, outcomes: seq<WriteOutcome>,
                         s: Session?, first: nat)
      reads this`maxConcurrentStreams, client`running, s
    {
      var n := |client.running|;
      && Followed(pending, writes, outcomes, if s == null then NoPeer else Peer(s.index, s.remoteSettings), first)
      && n == |running| + Streams(writes)
      && (s != null ==> s.nextStreamId == first + 2 * Streams(writes))
      && (n > |running| ==>
            && s != null && (s.remoteSettings || n == 1)
            && (n == 1 || (maxConcurrentStreams.Some? && n <= maxConcurrentStreams.value)) && maxConcurrentStreams != Some(0))
    }

    lemma ResumedNot(running: seq<Request>, pending: seq<Request>, settled: seq<Request>)
      requires client.running == running && client.pending == pending && client.settled == settled
      ensures Resumed(running, pending, settled, [])
    {
      assert pending[..0] == [] && running + [] == running && settled + [] == settled;
    }

    /** The lists after `writes`, as against those before. */
    ghost predicate Resumed(running: seq<Request>, pending: seq<Request>, settled: seq<Request>, writes: seq<Written>)
      reads client
    {
      && |writes| <= |pending|
      && client.running == running + Opening(pending[..|writes|], writes)
      && client.settled == settled + Failing(pending[..|writes|], writes)
      && SameButHead(client.pending, pending[|writes|..])
      && forall i :: 0 <= i < |writes| && pending[i].aborted ==> writes[i].Unwritten?
    }

    /** resume: the loop and then compaction, which moves no list. */
    method Resume(outcomes: seq<WriteOutcome>) returns (ghost writes: seq<Written>, broken: bool)
      requires Valid()
      modifies this`session, this`stuck, (if session == null then {} else {session})`destroyed, (if session == null then {} else {session})`nextStreamId
      modifies client`queue, client`runningIdx, client`pendingIdx, client`running, client`pending, client`settled
      ensures if broken then Broken() && (stuck <==> SeveralMayRun()) && AbortedInside(false) in outcomes && old(client.running) == []
              else Valid() && client.runningIdx <= 256 && Halts()
                   && Resumed(old(client.running), old(client.pending), old(client.settled), writes)
      ensures !broken ==> Sent(old(client.running), old(client.pending), writes, outcomes, old(session), old(NextId()))
      ensures session == old(session) || (session == null && SessionInvalid in outcomes)
      ensures old(session) != null ==> old(session).destroyed == old(session.destroyed) || SessionBroken in outcomes
    {
      hide Conserved, Opening, Failing;
      writes, broken := ResumeLoop(outcomes);
      if !broken {
        client.Compact();
      }
    }

    /** finalizeRequest for a running request that is over: its slot goes, wherever it is. */
    method Finalize(id: nat, final: Request, resetPendingIdx: bool)
      requires Valid() && Position(client.running, id) < |client.running|
      requires final.id == id && !final.Live() && Spent(final)
      modifies client`queue, client`runningIdx, client`pendingIdx, client`running, client`settled
      ensures Valid()
      ensures client.running == Removed(old(client.running), Position(old(client.running), id))
      ensures client.settled == old(client.settled) + [final]
    {
      hide Conserved;
      ghost var run, k := client.running, Position(client.running, id);
      ConservedSettle(run, client.pending, client.settled, client.dispatched, k, final);
      InOrderRemoved(run, k);
      client.CompleteRequest(id, resetPendingIdx);
      client.settled := client.settled + [final];
    }

    /** Final response headers on the stream of a running request. */
    method StreamResponse(id: nat)
      requires Valid()
      modifies client`queue, client`running, client`pending
      ensures Valid() && client.pending == old(client.pending)
      ensures var run, k := old(client.running), Position(old(client.running), id);
              client.running == if k < |run| && run[k].streamId.Some? then run[k := run[k].(responseReceived := true)] else run
    {
      hide Conserved;
      var index := client.IndexOf(id);
      client.InSection();
      if index < client.pendingIdx {
        var request := client.queue[index].value;
        if request.streamId.Some? {
          assert Runs(request);
          InOrderSame(client.running, index - client.runningIdx, request.(responseReceived := true));
          client.Update(index, request.(responseReceived := true));
        }
      }
    }

    /** completeRequestStream: the stream is over, with a complete response or without one. Either way the caller hears,
        and exactly this request leaves the running section. One aborted inside its write was finalized then, so its
        stream's end frees nothing. A stream that a closed socket took from under its request still reports to it: the
        request fails in its slot. */
    method StreamEnd(id: nat, complete: bool)
      requires Valid()
      modifies client`queue, client`runningIdx, client`pendingIdx, client`running, client`pending, client`settled
      ensures Valid()
      ensures var run, k := old(client.running), Position(old(client.running), id);
              var bound := k < |run| && run[k].streamId.Some?;
              && client.running == (if bound then Removed(run, k) else run)
              && client.settled == old(client.settled) + (if bound then [Released(run[k], complete)] else [])
              && (bound ==> Over(client.settled[|client.settled| - 1], run[k], complete))
      ensures var rest, j := old(client.pending), Position(old(client.pending), id);
              var waits := Position(old(client.running), id) == |old(client.running)| && j < |rest|;
              client.pending == if waits && rest[j].Live() && rest[j].streamId.Some? then rest[j := rest[j].Failed()] else rest
    {
      hide Conserved, InOrder, Removed;
      var index := client.IndexOf(id);
      client.InSection();
      if index == |client.queue| || client.queue[index].value.streamId.None? {
        return;
      }
      var request := client.queue[index].value;
      if index < client.pendingIdx {
        assert Runs(request);
        Finalize(id, Released(request, complete), false);
      } else if request.Live() {
        FailWaiting(index);
      }
    }

    /** state.abort, by the latest abort function of a request. A running one is settled. One that waits is marked and
        keeps its slot; but while the state of that function still has its stream, onError runs too, and with nothing
        running and an error that is not recoverable it fails everything that waits. */
    method StreamAbort(id: nat, resetPendingIdx: bool, recoverable: bool)
      requires Valid()
      modifies client`queue, client`runningIdx, client`pendingIdx, client`running, client`pending, client`settled
      ensures Valid()
      ensures var run, k := old(client.running), Position(old(client.running), id);
              var live := k < |run| && run[k].Live();
              && client.running == (if live then Removed(run, k) else run)
              && (live ==> client.settled == old(client.settled) + [Released(run[k], false)]
                           && Over(client.settled[|client.settled| - 1], run[k], false))
              && (k < |run| ==> client.pending == old(client.pending))
      ensures var rest, j := old(client.pending), Position(old(client.pending), id);
              Position(old(client.running), id) == |old(client.running)| && j < |rest| && rest[j].Live() ==>
                if EmptiesQueue(rest[j], old(client.running), recoverable)
                then client.pending == [] && client.settled == old(client.settled) + AllFailed(rest)
                else client.pending == rest[j := rest[j].Failed()] && client.settled == old(client.settled)
      ensures var run, rest := old(client.running), old(client.pending);
              Position(run, id) == |run| && (Position(rest, id) == |rest| || !rest[Position(rest, id)].Live()) ==>
                client.pending == rest && client.settled == old(client.settled)
    {
      hide Conserved, InOrder, Removed, AllFailed;
      var index := client.IndexOf(id);
      client.InSection();
      if index < client.pendingIdx {
        var request := client.queue[index].value;
        assert Runs(request);
        if request.Live() {
          Finalize(id, Released(request, false), resetPendingIdx);
        }
      } else if index < |client.queue| && client.queue[index].value.Live() {
        var attached := client.queue[index].value.attached;
        FailWaiting(index);
        if attached {
          RaiseError(recoverable);
        }
      }
    }

    /** errorRequest on a request that waits: it keeps its slot. */
    method FailWaiting(index: nat)
      requires Valid() && client.pendingIdx <= index < |client.queue|
      modifies client`queue, client`running, client`pending
      ensures Valid() && client.running == old(client.running)
      ensures var j := index - client.pendingIdx; var rest := old(client.pending);
              j < |rest| && client.pending == rest[j := rest[j].Failed()]
    {
      hide Conserved;
      client.InSection();
      var request := client.queue[index].value;
      assert Waits(request);
      client.Update(index, request.Failed());
    }

    /** retryRefusedStream: a refused stream's request goes back to the front of pending, once. Aborting it there leaves
        the other requests alone. */
    method RetryRefusedStream(id: nat) returns (retried: bool)
      requires Valid()
      modifies client`queue, client`runningIdx, client`pendingIdx, client`running, client`pending
      ensures Valid()
      ensures var run, k := old(client.running), Position(old(client.running), id);
              && retried == (k < |run| && RefusalRetriable(run[k]))
              && client.running == (if retried then Removed(run, k) else run)
              && client.pending == (if retried then [AfterRefusal(run[k])] else []) + old(client.pending)
      ensures var run, k := old(client.running), Position(old(client.running), id);
              && (retried <==> k < |run| && !run[k].aborted && !run[k].responseReceived && !run[k].refusedStreamRetry
                               && (run[k].body.NoBody? || run[k].body.Buffer? || run[k].body.Blob?))
              && (retried ==> client.pending[0] == run[k].(streamId := None, attached := false, refusedStreamRetry := true,
                                                           refusals := run[k].refusals + 1))
      ensures retried ==> !client.pending[0].attached && client.pending[0].Live()
    {
      hide Conserved, Removed, Inserted;
      var index := client.IndexOf(id);
      client.InSection();
      if index >= client.pendingIdx || !RefusalRetriable(client.queue[index].value) {
        assert index < client.pendingIdx ==> Runs(client.queue[index].value);
        assert [] + client.pending == client.pending;
        return false;
      }
      var request := client.queue[index].value;
      assert Runs(request);
      ghost var run, k := client.running, Position(client.running, id);
      ConservedReturn(run, client.pending, client.settled, client.dispatched, k, AfterRefusal(request), 0);
      InsertedFirst(client.pending, AfterRefusal(request));
      InOrderRemoved(run, k);
      client.CompleteRequest(id, false);
      client.InsertPending(AfterRefusal(request));
      return true;
    }

    /** onHttp2SessionGoAway. A second frame on the same session does nothing. */
    method SessionGoAway(goneAway: Session, last: Option<nat>)
      requires Valid()
      modifies this`session, goneAway`receivedGoAway
      modifies client`queue, client`pendingIdx, client`running, client`pending, client`settled
      ensures Valid() && goneAway.receivedGoAway && (old(Whole(client.running)) ==> Whole(client.running))
      ensures Whole(old(client.running)) && (forall r :: r in old(client.running) ==> r.streamSession == goneAway.index) ==>
                CutExact(StreamIds(old(client.running)), last)
      ensures if old(goneAway.receivedGoAway)
              then CutAt(old(client.running), old(client.pending), old(client.settled), |old(client.running)|)
                   && session == old(session)
              else CutAt(old(client.running), old(client.pending), old(client.settled), Cut(StreamIds(old(client.running)), last))
                   && session == if old(session) == goneAway then null else old(session)
      ensures !old(goneAway.receivedGoAway) ==>
                var run, k := old(client.running), |client.running|;
                && k <= |run| && client.running == run[..k]
                && (forall r :: r in run[..k] ==> r.streamId.Some? && (last.Some? ==> r.streamId.value <= last.value))
                && (k < |run| ==> run[k].streamId.None? || (last.Some? && run[k].streamId.value > last.value))
                && Parted(run[k..], client.pending, client.settled)
    {
      hide Conserved, CutExact, InOrder, Whole, Returned, Dropped;
      ExactWhenWhole(client.running, goneAway.index, last);
      WholePrefix(client.running, Cut(StreamIds(client.running), last));
      if goneAway.receivedGoAway {
        CutNowhere();
        return;
      }
      goneAway.receivedGoAway := true;
      ghost var run, rest, settled := client.running, client.pending, client.settled;
      CutAccepts(run, last);
      RefusedParted(run[Cut(StreamIds(run), last)..], rest, settled);
      RefuseUnaccepted(last);
      if session == goneAway {
        session := null;
      }
    }

    /** The running section was cut at k: what is before it goes on undisturbed, each request from there
        on went once to the front of pending, in order, or was failed, and pending follows as it was. */
    ghost predicate CutAt(running: seq<Request>, pending: seq<Request>, settled: seq<Request>, k: nat)
      reads client
    {
      && k <= |running|
      && client.running == running[..k]
      && client.pending == Returned(running[k..]) + pending
      && client.settled == settled + Dropped(running[k..])
    }

    lemma CutNowhere()
      ensures CutAt(client.running, client.pending, client.settled, |client.running|)
    {
      assert client.running[|client.running|..] == [];
    }

    method RefuseUnaccepted(last: Option<nat>)
      requires Valid()
      modifies client`queue, client`pendingIdx, client`running, client`pending, client`settled
      ensures Valid()
      ensures CutAt(old(client.running), old(client.pending), old(client.settled), Cut(StreamIds(old(client.running)), last))
    {
      var pendingIdx := GetGoAwayPendingIdx(last);
      var retriable, failed := TakeRefused(pendingIdx);
      ReplaceRefused(pendingIdx, retriable, failed);
    }

    /** The loop of onHttp2SessionGoAway over the requests that were not accepted. */
    method TakeRefused(pendingIdx: nat) returns (retriable: seq<Request>, ghost failed: seq<Request>)
      requires client.Valid() && client.runningIdx <= pendingIdx <= client.pendingIdx
      ensures var cut := client.running[pendingIdx - client.runningIdx..];
              retriable == Returned(cut) && failed == Dropped(cut)
    {
      ghost var cut := client.running[pendingIdx - client.runningIdx..];
      retriable, failed := [], [];
      client.InSection();
      for i := pendingIdx to client.pendingIdx
        invariant retriable == Returned(cut[..i - pendingIdx]) && failed == Dropped(cut[..i - pendingIdx])
      {
        var request := client.queue[i].value;
        ghost var m := i - pendingIdx;
        assert cut[..m + 1][..m] == cut[..m] && cut[m] == request;
        if GoAwayRetriable(request) {
          retriable := retriable + [AfterGoAway(request)];
        } else {
          failed := failed + [DroppedByGoAway(request)];
        }
      }
      assert cut[..|cut|] == cut;
    }

    /** The queue is cut at the new pending index; the retried requests and the old pending follow. */
    method ReplaceRefused(pendingIdx: nat, retriable: seq<Request>, ghost failed: seq<Request>)
      requires Valid() && client.runningIdx <= pendingIdx <= client.pendingIdx
      requires var cut := client.running[pendingIdx - client.runningIdx..];
               retriable == Returned(cut) && failed == Dropped(cut)
      modifies client`queue, client`pendingIdx, client`running, client`pending, client`settled
      ensures Valid()
      ensures CutAt(old(client.running), old(client.pending), old(client.settled), pendingIdx - client.runningIdx)
    {
      hide Conserved, Returned, Dropped;
      if pendingIdx == client.pendingIdx {
        CutNowhere();
        return;
      }
      ghost var run, rest, k := client.running, client.pending, pendingIdx - client.runningIdx;
      GoAwayKeepsAll(run, rest, client.settled, client.dispatched, k);
      GoAwayAffords(run[k..]);
      InOrderPrefix(run, k);
      client.CutAndPush(pendingIdx, retriable);
      client.settled := client.settled + failed;
    }

    /** Within the budgets, what a refusal makes of running requests may wait, or be failed. */
    lemma GoAwayAffords(cut: seq<Request>)
      requires forall r :: r in cut ==> Runs(r)
      ensures forall t :: t in Returned(cut) ==> Waits(t)
      ensures forall t :: t in Dropped(cut) ==> Spent(t)
    {
      GoAwayMembers(cut);
    }

    /** onHttp2SocketClose: everything running is pending again, ahead of the rest, in the same order. */
    method SocketClose()
      requires Valid()
      modifies this`session, this`closes, client`pendingIdx, client`running, client`pending
      ensures Valid() && session == null && closes == old(closes) + 1
      ensures client.running == [] && client.pending == old(client.running + client.pending)
    {
      session := null;
      closes := closes + 1;
      client.ReturnRunning();
    }

    /** resume, and what it means for the running section. */
    method ResumeClean(outcomes: seq<WriteOutcome>) returns (broken: bool)
      requires Valid()
      modifies this`session, this`stuck, session, client`queue, client`runningIdx, client`pendingIdx
      modifies client`running, client`pending, client`settled
      ensures if broken then Broken() && (stuck <==> SeveralMayRun()) && AbortedInside(false) in outcomes && old(client.running) == []
              else Valid() && Halts()
      ensures session == null || session == old(session)
      ensures old(Whole(client.running)) && (forall o :: o in outcomes ==> !o.AbortedInside?) ==> Whole(client.running)
    {
      hide Conserved, Opening, Failing;
      ghost var run, pending := client.running, client.pending;
      assert forall r :: r in pending ==> Waits(r) && !r.completed;
      ghost var s, first := session, NextId();
      ghost var writes;
      writes, broken := Resume(outcomes);
      if !broken && Whole(run) && forall o :: o in outcomes ==> !o.AbortedInside? {
        StrandsAsked(pending, writes, outcomes, if s == null then NoPeer else Peer(s.index, s.remoteSettings), first);
        assert forall i :: 0 <= i < |writes| ==> pending[i] in pending && writes[i] in writes;
        OpenedWhole(pending[..|writes|], writes);
      }
    }

    /** The events that concern the current session, or no session. A broken queue ends the run. */
    method Handle(event: Event) returns (broken: bool)
      requires Valid() && !event.Connects? && !event.GoesAway?
      modifies this, client, session
      ensures if broken then Broken() && (stuck <==> SeveralMayRun())
                             && event.Resumes? && AbortedInside(false) in event.outcomes && old(client.running) == []
              else Valid() && (event.Resumes? ==> Halts())
      ensures session == old(session) || session == null
      ensures client.dispatched == old(client.dispatched) + if event.Dispatches? then 1 else 0
      ensures event.Dispatches? ==> |client.pending| == |old(client.pending)| + 1
      ensures event.Closes? ==> session == null && client.running == []
      ensures event.Errors? && !event.recoverable && old(client.running) == [] ==> client.pending == []
      ensures old(Whole(client.running)) && Clean(event) ==> Whole(client.running)
    {
      hide Valid, Tracked, Broken, Resumed, AllFailed, Ceiling, Halts;
      broken := false;
      match event {
        case Dispatches(idempotent, upgrade, body, bodyEmpty) =>
          Dispatch(NewRequest(client.dispatched, idempotent, upgrade, body, bodyEmpty));
        case Settings(n, connect) =>
          RemoteSettings(n, connect);
        case Resumes(outcomes) =>
          broken := ResumeClean(outcomes);
        case Errors(recoverable) =>
          RaiseError(recoverable);
        case Closes =>
          SocketClose();
        case Connects =>
        case GoesAway(_, _) =>
        case _ =>
          HandleStream(event);
      }
    }

    /** The events of one request's stream, or of its consumer. */
    method HandleStream(event: Event)
      requires Valid() && (event.Responds? || event.Ends? || event.Aborts? || event.Refuses?)
      modifies client`queue, client`runningIdx, client`pendingIdx, client`running, client`pending, client`settled
      ensures Valid() && (old(Whole(client.running)) ==> Whole(client.running))
    {
      hide Valid, Removed, AfterRefusal, Released, RefusalRetriable, EmptiesQueue, AllFailed;
      match event {
        case Responds(id) =>
          StreamResponse(id);
        case Ends(id, complete) =>
          StreamEnd(id, complete);
        case Aborts(id, resetPendingIdx, recoverable) =>
          StreamAbort(id, resetPendingIdx, recoverable);
        case Refuses(id, recoverable) =>
          var retried := RetryRefusedStream(id);
          if !retried {
            StreamAbort(id, false, recoverable);
          }
      }
    }

    /** Section 8.7 of RFC 9113, over whole runs: refusals move a request back at most twice, once for
        each cause, so it is opened on at most three streams, and on one more for each closed socket. */
    lemma ReplayBound(r: Request)
      requires Tracked() && (r in client.running || r in client.pending || r in client.settled)
      ensures r.refusals <= 2 && r.writes <= 3 + closes
      ensures r.goAwayReplayAttempts == 0 ==> r.refusals <= 1
      ensures !r.refusedStreamRetry ==> r.refusals <= 1
      ensures r in client.pending ==> r.writes <= 2 + closes
    {
      assert Runs(r) || Waits(r) || r in client.settled;
    }

    /** What the invariant says of all requests, also where the queue is broken. */
    lemma Accounted()
      requires Valid() || Broken()
      ensures forall r :: r in client.running || r in client.pending || r in client.settled ==>
                r.refusals <= 2 && r.writes <= 3 + closes
      ensures |client.running| + |client.pending| + |client.settled| == client.dispatched
    {
      forall r | r in client.running || r in client.pending || r in client.settled
        ensures r.refusals <= 2 && r.writes <= 3 + closes
      {
        ReplayBound(r);
      }
    }
  }

  /** Aborting a waiting request takes all the others down exactly if a stream is still behind its abort function,
      nothing runs, and the error is not recoverable. */
  predicate EmptiesQueue(request: Request, running: seq<Request>, recoverable: bool) {
    request.attached && running == [] && !recoverable
  }

  datatype Event =
    | Dispatches(idempotent: bool, upgrade: bool, body: Body, bodyEmpty: bool)
    | Connects
    | Settings(maxConcurrentStreams: Option<nat>, enableConnectProtocol: Option<bool>)
    | Resumes(outcomes: seq<WriteOutcome>)
    | Responds(id: nat)
    | Ends(id: nat, complete: bool)
    | Aborts(id: nat, resetPendingIdx: bool, recoverable: bool)
    | Refuses(id: nat, recoverable: bool)
    | GoesAway(session: nat, last: Option<nat>)
    | Errors(recoverable: bool)
    | Closes

  /** No write of the event has its request aborted from inside. */
  ghost predicate Clean(event: Event) {
    event.Resumes? ==> forall o :: o in event.outcomes ==> !o.AbortedInside?
  }

  /** How many of the events dispatch a request. */
  ghost function Dispatching(events: seq<Event>): nat {
    if events == [] then 0
    else Dispatching(events[..|events| - 1]) + if events[|events| - 1].Dispatches? then 1 else 0
  }

  lemma NoneDispatching()
    ensures Dispatching([]) == 0
  {
  }

  lemma OneDispatching(events: seq<Event>, i: nat)
    requires i < |events|
    ensures Dispatching(events[..i + 1]) == Dispatching(events[..i]) + if events[i].Dispatches? then 1 else 0
  {
    assert events[..i + 1][..i] == events[..i];
  }

  /** Any run of a client that is not destroyed, from its construction on, whatever the events and whatever the writes
      come to. No request is lost or doubled and none is replayed beyond its budgets. The queue breaks, which ends the
      run, only if a callback inside a write aborts with an error that is not recoverable while nothing runs. In a run
      without aborts from inside writes every running request is live and has its stream. */
  method Run(pipelining: nat, events: seq<Event>) returns (driver: Driver, broken: bool)
    ensures if broken then driver.Broken() && (driver.stuck <==> driver.SeveralMayRun()) else driver.Valid()
    ensures broken ==> exists e :: e in events && e.Resumes? && AbortedInside(false) in e.outcomes
    ensures (forall e :: e in events ==> Clean(e)) ==> Whole(driver.client.running)
    ensures forall r :: r in driver.client.running || r in driver.client.pending || r in driver.client.settled ==>
              r.refusals <= 2 && r.writes <= 3 + driver.closes
    ensures |driver.client.running| + |driver.client.pending| + |driver.client.settled| == driver.client.dispatched
    ensures !broken ==> driver.client.dispatched == Dispatching(events)
  {
    hide Driver.Valid, Driver.Broken, Driver.CutAt, Cut, Driver.Halts, Dispatching;
    driver := new Driver(pipelining);
    broken := false;
    NoneDispatching();
    var opened': seq<Session> := [];
    var i := 0;
    while i < |events| && !broken
      invariant i <= |events|
      invariant if broken then driver.Broken() && (driver.stuck <==> driver.SeveralMayRun()) else driver.Valid()
      invariant broken ==> exists e :: e in events && e.Resumes? && AbortedInside(false) in e.outcomes
      invariant (forall e :: e in events ==> Clean(e)) ==> Whole(driver.client.running)
      invariant driver.client.dispatched == Dispatching(events[..i])
      invariant fresh(driver) && fresh(driver.client) && (driver.session != null ==> fresh(driver.session))
      invariant forall s :: s in opened' ==> fresh(s)
    {
      assert events[i] in events;
      OneDispatching(events, i);
      match events[i] {
        case Connects =>
          if driver.session == null {
            driver.Connect();
            opened' := opened' + [driver.session];
          }
        case GoesAway(k, last) =>
          if k < |opened'| {
            assert opened'[k] in opened';
            driver.SessionGoAway(opened'[k], last);
          }
        case e =>
          broken := driver.Handle(e);
      }
      i := i + 1;
    }
    assert i == |events| ==> events[..i] == events;
    driver.Accounted();
  }

  /** One request, aborted with an error of the consumer's own while its body is written: the pending index passes the
      end of the queue. If the peer takes more than one stream the resume then throws, and the client never resumes
      again. The next request dispatched counts as running, and is never written. */
  method AbortedInWrite(streams: nat) returns (driver: Driver)
    ensures driver.client.pendingIdx == |driver.client.queue| == driver.client.runningIdx + 1
    ensures driver.client.queue[driver.client.runningIdx] == Some(NewRequest(1, true, false, NoBody, true))
    ensures driver.stuck <==> streams > 1
  {
    hide Conserved, InOrder, NewRequest;
    driver := new Driver(1);
    driver.Connect();
    driver.RemoteSettings(Some(streams), None);
    driver.Dispatch(NewRequest(0, true, false, Buffer, false));
    var broken := driver.AbortInside(false);
    driver.TurnAtBreak();
    driver.client.Push(NewRequest(1, true, false, NoBody, true));
  }

  /** One GET on a session whose peer takes a hundred streams: resuming opens the first stream for it. */
  method OneGet() returns (driver: Driver)
    ensures driver.Valid() && driver.client.pending == [] && driver.session != null && driver.session.nextStreamId == 3
    ensures driver.client.running == [NewRequest(0, true, false, NoBody, true).(streamId := Some(1), streamSession := 0, attached := true, writes := 1)]
  {
    hide Driver.Valid, Conserved;
    driver := new Driver(1);
    driver.Connect();
    driver.RemoteSettings(Some(100), None);
    driver.Dispatch(NewRequest(0, true, false, NoBody, true));
    ghost var writes;
    var broken;
    ghost var r := driver.client.pending[0];
    writes, broken := driver.Resume([]);
    assert [r][..0] == [] && writes != [];
    assert writes[..1] == writes && [r][..1] == [r] && writes[..0] == [];
    assert driver.client.running == [] + Opening([r], writes) == OpenedBy(r, writes[0]);
  }

  /** A socket closes under the first of two requests; both wait. The consumer of the first aborts it, and the second,
      for which nothing was ever sent, fails with it. */
  method AbortTakesAll() returns (driver: Driver)
    ensures driver.Valid() && driver.client.running == [] && driver.client.pending == []
    ensures |driver.client.settled| == 2 && driver.client.settled[1] == NewRequest(1, true, false, NoBody, true).Failed()
  {
    hide Conserved, InOrder, Driver.Valid, NewRequest, Bound;
    driver := OneOfTwo();
    var r0, r1 := NewRequest(0, true, false, NoBody, true), NewRequest(1, true, false, NoBody, true);
    driver.SocketClose();
    BoundWaits(r0, 0, 1, r1);
    assert driver.client.pending == [Bound(r0, 0, 1), r1];
    driver.StreamAbort(0, false, false);
  }

  /** The peer refuses the stream of the first of two requests, which waits for its retry. Its consumer aborts it; the
      other request is left alone. */
  method AbortAfterRefusal() returns (driver: Driver)
    ensures driver.Valid() && driver.client.running == [] && driver.client.settled == []
    ensures |driver.client.pending| == 2 && !driver.client.pending[0].Live()
    ensures driver.client.pending[1] == NewRequest(1, true, false, NoBody, true)
  {
    hide Conserved, InOrder, Driver.Valid, NewRequest;
    driver := OneOfTwo();
    var r0, r1 := NewRequest(0, true, false, NoBody, true), NewRequest(1, true, false, NoBody, true);
    assert RefusalRetriable(driver.client.running[0]) by {
      FreshRetriable();
    }
    var retried := driver.RetryRefusedStream(0);
    assert driver.client.pending == [AfterRefusal(Bound(r0, 0, 1)), r1];
    driver.StreamAbort(0, false, false);
  }

  lemma FreshRetriable()
    ensures RefusalRetriable(Bound(NewRequest(0, true, false, NoBody, true), 0, 1))
  {
  }

  /** Two requests, one of them on a stream. */
  method OneOfTwo() returns (driver: Driver)
    ensures fresh(driver) && fresh(driver.client) && driver.Valid() && driver.client.settled == []
    ensures driver.session != null && fresh(driver.session) && !driver.session.receivedGoAway
    ensures driver.session.index == 0 && driver.session.nextStreamId == 3 && driver.client.dispatched == 2
    ensures driver.client.running == [Bound(NewRequest(0, true, false, NoBody, true), 0, 1)]
    ensures driver.client.pending == [NewRequest(1, true, false, NoBody, true)]
  {
    hide Conserved, InOrder, Driver.Valid, NewRequest, Bound;
    var r0, r1 := NewRequest(0, true, false, NoBody, true), NewRequest(1, true, false, NoBody, true);
    driver := new Driver(1);
    driver.Dispatch(r0);
    driver.Dispatch(r1);
    driver.Connect();
    assert driver.client.pending == [r0, r1];
    driver.OpenStream();
  }

  lemma BoundWaits(r: Request, session: nat, id: nat, next: Request)
    requires r.Live() && r.id != next.id
    ensures var waiting := [Bound(r, session, id), next];
            waiting[0].Live() && waiting[0].attached && Position(waiting, r.id) == 0
  {
  }

  /** One session and three requests, the second of them aborted inside its write. */
  method ThreeStreams() returns (driver: Driver)
    ensures fresh(driver) && fresh(driver.client) && driver.session != null && fresh(driver.session)
    ensures driver.Valid() && driver.client.pending == [] && !driver.session.receivedGoAway
    ensures driver.client.running == [Bound(NewRequest(0, true, false, NoBody, true), 0, 1), Stranded(NewRequest(1, true, false, NoBody, true)),
                                      Bound(NewRequest(2, true, false, NoBody, true), 0, 5)]
  {
    hide Driver.Valid, Driver.Tracked, Conserved, NewRequest, Bound, Stranded;
    driver := SecondStranded();
    driver.OpenStream();
  }

  method SecondStranded() returns (driver: Driver)
    ensures fresh(driver) && fresh(driver.client) && driver.Valid()
    ensures driver.session != null && fresh(driver.session) && !driver.session.receivedGoAway
    ensures driver.session.index == 0 && driver.session.nextStreamId == 5
    ensures driver.client.running == [Bound(NewRequest(0, true, false, NoBody, true), 0, 1), Stranded(NewRequest(1, true, false, NoBody, true))]
    ensures driver.client.pending == [NewRequest(2, true, false, NoBody, true)]
  {
    hide Driver.Valid, Driver.Tracked, Conserved, NewRequest, Bound, Stranded;
    driver := OneOfThree();
    var _ := driver.AbortInside(true);
  }

  /** Three requests, the first of them on a stream. */
  method OneOfThree() returns (driver: Driver)
    ensures fresh(driver) && fresh(driver.client) && driver.Valid()
    ensures driver.session != null && fresh(driver.session) && !driver.session.receivedGoAway
    ensures driver.session.index == 0 && driver.session.nextStreamId == 3
    ensures driver.client.running == [Bound(NewRequest(0, true, false, NoBody, true), 0, 1)]
    ensures driver.client.pending == [NewRequest(1, true, false, NoBody, true), NewRequest(2, true, false, NoBody, true)]
  {
    hide Driver.Valid, Driver.Tracked, Conserved, NewRequest, Bound;
    driver := OneOfTwo();
    driver.Dispatch(NewRequest(2, true, false, NoBody, true));
  }

  /** A GOAWAY for all three streams leaves only the first request running: the third is sent again though the peer
      accepted it. */
  method AcceptedButRefused() returns (driver: Driver)
    ensures driver.Valid() && |driver.client.running| == 1 && |driver.client.pending| == 2
    ensures driver.client.pending[1].id == 2 && driver.client.pending[1].goAwayReplayAttempts == 1
  {
    hide Driver.Valid, Returned, Dropped, Cut;
    driver := ThreeStreams();
    CutAtStranded(driver.client.running);
    driver.SessionGoAway(driver.session, Some(9));
  }

  lemma CutAtStranded(run: seq<Request>)
    requires |run| == 3 && run[0].streamId == Some(1) && run[1].streamId == None
    requires forall r :: r in run[1..] ==> r.body.NoBody? && !r.responseReceived && r.goAwayReplayAttempts == 0
    ensures Cut(StreamIds(run), Some(9)) == 1 && Returned(run[1..]) == [AfterGoAway(run[1]), AfterGoAway(run[2])]
  {
    var cut := run[1..];
    assert run[1] == cut[0] && run[2] == cut[1] && cut[..1] == [cut[0]] && cut[..1][..0] == [];
    assert Returned(cut[..1]) == [AfterGoAway(cut[0])];
  }

  predicate GoAwayRetriable(r: Request) {
    !(r.streamId.Some? && r.responseReceived) && r.Replayable() && r.goAwayReplayAttempts + 1 <= MAX_GOAWAY_REPLAY_ATTEMPTS
  }

  /** Back to pending, with one attempt of the budget gone. */
  function AfterGoAway(r: Request): Request {
    r.(streamId := None, goAwayReplayAttempts := r.goAwayReplayAttempts + 1, refusals := r.refusals + 1)
  }

  /** Failed; the attempt is counted only if nothing else stood against a replay. */
  function DroppedByGoAway(r: Request): Request {
    var counted := !(r.streamId.Some? && r.responseReceived) && r.Replayable();
    r.(streamId := None, goAwayReplayAttempts := r.goAwayReplayAttempts + if counted then 1 else 0).Failed()
  }

  function Returned(s: seq<Request>): seq<Request> {
    if s == [] then []
    else Returned(s[..|s| - 1]) + if GoAwayRetriable(s[|s| - 1]) then [AfterGoAway(s[|s| - 1])] else []
  }

  function Dropped(s: seq<Request>): seq<Request> {
    if s == [] then []
    else Dropped(s[..|s| - 1]) + if GoAwayRetriable(s[|s| - 1]) then [] else [DroppedByGoAway(s[|s| - 1])]
  }

  /** However many of the refused requests are dealt with, none is lost and none is doubled. */
  lemma {:induction false} GoAwayKeeps(run: seq<Request>, rest: seq<Request>, settled: seq<Request>, n: nat, k: nat, m: nat)
    requires Conserved(run, rest, settled, n) && k + m <= |run|
    ensures var cut := run[k..][..m];
            Conserved(run[..k] + run[k + m..], Returned(cut) + rest, settled + Dropped(cut), n)
  {
    hide Conserved, Returned, Dropped, Removed, GoAwayRetriable;
    if m == 0 {
      NothingCut(run, rest, settled, k);
    } else {
      var left, cut := run[..k] + run[k + m - 1..], run[k..][..m - 1];
      GoAwayKeeps(run, rest, settled, n, k, m - 1);
      GoAwayStep(left, rest, settled, n, k, cut);
      CutGrows(run, k, m);
      assert run[k..][..m] == cut + [left[k]];
    }
  }

  lemma NothingCut(run: seq<Request>, rest: seq<Request>, settled: seq<Request>, k: nat)
    requires k <= |run|
    ensures var cut := run[k..][..0];
            run[..k] + run[k + 0..] == run && Returned(cut) + rest == rest && settled + Dropped(cut) == settled
  {
    assert run[k..][..0] == [];
  }

  lemma CutGrows(run: seq<Request>, k: nat, m: nat)
    requires 0 < m && k + m <= |run|
    ensures run[k..][..m] == run[k..][..m - 1] + [(run[..k] + run[k + m - 1..])[k]]
    ensures Removed(run[..k] + run[k + m - 1..], k) == run[..k] + run[k + m..]
  {
  }

  lemma GoAwayKeepsAll(run: seq<Request>, rest: seq<Request>, settled: seq<Request>, n: nat, k: nat)
    requires Conserved(run, rest, settled, n) && k <= |run|
    ensures Conserved(run[..k], Returned(run[k..]) + rest, settled + Dropped(run[k..]), n)
  {
    GoAwayKeeps(run, rest, settled, n, k, |run| - k);
    assert run[k..][..|run| - k] == run[k..] && run[..k] + run[k + (|run| - k)..] == run[..k];
  }

  lemma GoAwayStep(run: seq<Request>, rest: seq<Request>, settled: seq<Request>, n: nat, k: nat, cut: seq<Request>)
    requires k < |run| && Conserved(run, Returned(cut) + rest, settled + Dropped(cut), n)
    ensures var cut' := cut + [run[k]];
            Conserved(Removed(run, k), Returned(cut') + rest, settled + Dropped(cut'), n)
  {
    var r, cut' := run[k], cut + [run[k]];
    assert cut'[..|cut'| - 1] == cut;
    if GoAwayRetriable(r) {
      ConservedReturn(run, Returned(cut) + rest, settled + Dropped(cut), n, k, AfterGoAway(r), |Returned(cut)|);
      assert Inserted(Returned(cut) + rest, |Returned(cut)|, AfterGoAway(r)) == Returned(cut') + rest;
      assert Dropped(cut') == Dropped(cut);
    } else {
      ConservedSettle(run, Returned(cut) + rest, settled + Dropped(cut), n, k, DroppedByGoAway(r));
      assert settled + Dropped(cut) + [DroppedByGoAway(r)] == settled + Dropped(cut');
      assert Returned(cut') == Returned(cut);
    }
  }

  lemma {:induction false} GoAwayMembers(s: seq<Request>)
    ensures forall t :: t in Returned(s) ==> exists r :: r in s && GoAwayRetriable(r) && t == AfterGoAway(r)
    ensures forall t :: t in Dropped(s) ==> exists r :: r in s && !GoAwayRetriable(r) && t == DroppedByGoAway(r)
    ensures forall r :: r in s ==> if GoAwayRetriable(r) then AfterGoAway(r) in Returned(s) else DroppedByGoAway(r) in Dropped(s)
    ensures |Returned(s)| + |Dropped(s)| == |s|
  {
    hide GoAwayRetriable, AfterGoAway, DroppedByGoAway;
    if s != [] {
      var init, last := s[..|s| - 1], s[|s| - 1];
      GoAwayMembers(init);
      assert s == init + [last];
    }
  }

  /** `r` has left its stream, with its response whole or in an error. */
  ghost predicate Over(final: Request, r: Request, complete: bool) {
    final.id == r.id && final.streamId.None? && final.completed == complete && final.aborted == !complete
  }

  /** Each of the refused requests waits again, or is settled in an error: it waits if its answer had not begun, its body
      can be sent twice, and no GOAWAY refused it before. */
  ghost predicate Parted(refused: seq<Request>, pending: seq<Request>, settled: seq<Request>) {
    forall r :: r in refused ==>
      if (r.streamId.None? || !r.responseReceived) && (r.body.NoBody? || r.body.Buffer? || r.body.Blob?) && r.goAwayReplayAttempts == 0
      then r.(streamId := None, goAwayReplayAttempts := 1, refusals := r.refusals + 1) in pending
      else exists d :: d in settled && d.id == r.id && d.aborted && d.streamId.None?
                       && d.goAwayReplayAttempts == r.goAwayReplayAttempts
                            + if (r.streamId.None? || !r.responseReceived) && (r.body.NoBody? || r.body.Buffer? || r.body.Blob?)
                              then 1 else 0
  }

  lemma RefusedParted(refused: seq<Request>, rest: seq<Request>, settled: seq<Request>)
    ensures Parted(refused, Returned(refused) + rest, settled + Dropped(refused))
  {
    hide Returned, Dropped;
    GoAwayMembers(refused);
    forall r | r in refused && !GoAwayRetriable(r)
      ensures DroppedByGoAway(r) in settled + Dropped(refused) && DroppedByGoAway(r).id == r.id
    {
    }
  }

  lemma CutAccepts(running: seq<Request>, last: Option<nat>)
    ensures var k := Cut(StreamIds(running), last);
            && (forall r :: r in running[..k] ==> r.streamId.Some? && (last.Some? ==> r.streamId.value <= last.value))
            && (k < |running| ==> running[k].streamId.None? || (last.Some? && running[k].streamId.value > last.value))
  {
    var ids, k := StreamIds(running), Cut(StreamIds(running), last);
    forall r | r in running[..k]
      ensures Accepted(r.streamId, last)
    {
      var i :| 0 <= i < k && running[i] == r;
      assert ids[i] == r.streamId;
    }
  }

  /** The request as its stream lets go of it. */
  function Released(r: Request, complete: bool): Request {
    if complete then r.(streamId := None, completed := true) else r.(streamId := None).Failed()
  }

  /** Back to pending, for the one retry; the state behind its abort function lets go of the stream. */
  function AfterRefusal(r: Request): Request {
    r.(refusedStreamRetry := true, streamId := None, attached := false, refusals := r.refusals + 1)
  }

  predicate RefusalRetriable(r: Request) {
    !r.responseReceived && r.Live() && !r.refusedStreamRetry && r.Replayable()
  }

  lemma InsertedFirst(s: seq<Request>, r: Request)
    ensures Inserted(s, 0, r) == [r] + s
  {
  }

  /** One more request consumed, behind what was there before. */
  lemma Extend(running: seq<Request>, settled: seq<Request>, s: seq<Request>, writes: seq<Written>, next: Written)
    requires |writes| < |s|
    ensures var k := |writes|; var writes' := writes + [next];
            && running + Opening(s[..|writes'|], writes') == running + Opening(s[..k], writes) + OpenedBy(s[k], next)
            && settled + Failing(s[..|writes'|], writes') == settled + Failing(s[..k], writes) + FailedBy(s[k], next)
            && s[k..][1..] == s[|writes'|..]
  {
    hide Opening, Failing;
    OneMore(s, writes, next);
  }

  lemma OneMore(s: seq<Request>, writes: seq<Written>, next: Written)
    requires |writes| < |s|
    ensures var k := |writes|; var writes' := writes + [next];
            && Opening(s[..k + 1], writes') == Opening(s[..k], writes) + OpenedBy(s[k], next)
            && Failing(s[..k + 1], writes') == Failing(s[..k], writes) + FailedBy(s[k], next)
  {
    assert s[..|writes| + 1][..|writes|] == s[..|writes|];
    assert (writes + [next])[..|writes|] == writes;
  }

  lemma HeadAndTail(rest: seq<Request>, pending: seq<Request>, k: nat)
    requires k <= |pending| && SameButHead(rest, pending[k..])
    ensures rest != [] ==> k < |pending| && (rest[0] == pending[k] || rest[0] == Detached(pending[k]))
    ensures rest != [] ==> SameButHead(rest[1..], pending[k + 1..])
    ensures forall again :: SameButHead(again, rest) ==> SameButHead(again, pending[k..])
  {
  }

  /** A new abort function makes no difference to what a write does to the request. */
  lemma SameHead(a: Request, b: Request, write: Written)
    requires a == b || a == Detached(b)
    ensures OpenedBy(a, write) == OpenedBy(b, write) && FailedBy(a, write) == FailedBy(b, write) && a.aborted == b.aborted && a.upgrade == b.upgrade
  {
  }

  /** Writes that strand nothing leave only live requests with streams. */
  lemma {:induction false} OpenedWhole(s: seq<Request>, writes: seq<Written>)
    requires |s| == |writes| && (forall i :: 0 <= i < |s| && !s[i].Live() ==> writes[i].Unwritten?)
    requires forall w :: w in writes ==> !w.Strands?
    ensures Whole(Opening(s, writes))
  {
    if s != [] {
      var k := |s| - 1;
      assert writes[k] in writes && forall w :: w in writes[..k] ==> w in writes;
      OpenedWhole(s[..k], writes[..k]);
    }
  }
}
