/** The request queue of lib/dispatcher/client.js.

One list is cut by two indices into a complete, a running and a pending section:

    |   complete   |   running   |   pending   |
                   ^ runningIdx  ^ pendingIdx

The protocol drivers (modules Http1 and Http2) splice the list and move the indices. Every
operation here is proved against the lists a reader has in mind: what runs, what waits, and what
has left the queue because its caller heard the end. A request is identified by its number; the
fields the drivers set on it travel with it in its slot. */
module ClientQueue {
  import opened Wrappers

  /** What a request body is, as far as the drivers ask. */
  datatype Body = NoBody | Buffer | Blob | Stream | AsyncIterable | SyncIterable | FormData

  datatype Request = Request(
    id: nat,
    idempotent: bool,
    upgrade: bool,           // an upgrade, or a CONNECT
    body: Body,
    bodyEmpty: bool,         // bodyLength(body) is zero
    aborted: bool,
    completed: bool,
    // HTTP/2: the stream the request is bound to, and its two replay budgets
    streamId: Option<nat>,
    streamSession: nat,      // the session that stream belongs to
    responseReceived: bool,  // final response headers arrived on that stream
    goAwayReplayAttempts: nat,
    refusedStreamRetry: bool,
    attached: bool,          // the state behind its abort function still has its stream
    // history: streams opened for it, and times a refusal moved it back to pending
    writes: nat,
    refusals: nat)
  {
    /** Neither completed nor failed: the caller is still waiting. */
    predicate Live() {
      !aborted && !completed
    }

    predicate Fresh() {
      && Live()
      && streamId.None? && !responseReceived && goAwayReplayAttempts == 0 && !refusedStreamRetry && !attached
      && writes == refusals == 0
    }

    /** canReplayRequest */
    predicate Replayable() {
      body.NoBody? || body.Buffer? || body.Blob?
    }

    /** errorRequest: an aborted request stays as it is. Its abort function does nothing any more. */
    function Failed(): Request {
      this.(aborted := true, attached := false)
    }
  }

  /** A request as it is dispatched. */
  function NewRequest(id: nat, idempotent: bool, upgrade: bool, body: Body, bodyEmpty: bool): (r: Request)
    ensures r.Fresh() && r.id == id
  {
    Request(id, idempotent, upgrade, body, bodyEmpty, false, false, None, 0, false, 0, false, false, 0, 0)
  }

  function Slots(s: seq<Request>): (q: seq<Option<Request>>)
    ensures |q| == |s| && forall i :: 0 <= i < |s| ==> q[i] == Some(s[i])
  {
    seq(|s|, i requires 0 <= i < |s| => Some(s[i]))
  }

  lemma SlotsCut(running: seq<Request>, pending: seq<Request>, k: nat, returned: seq<Request>)
    requires k <= |running|
    ensures Slots(running[..k] + (returned + pending)) ==
            Slots(running + pending)[..k] + Slots(returned) + Slots(running + pending)[|running|..]
  {
  }

  lemma SlotsUpdated(running: seq<Request>, pending: seq<Request>, k: nat, request: Request)
    requires k < |running| + |pending|
    ensures Slots(running + pending)[k := Some(request)] ==
            if k < |running| then Slots(running[k := request] + pending)
            else Slots(running + pending[k - |running| := request])
  {
  }

  lemma UpdatedTail<T>(q: seq<T>, a: nat, i: nat, x: T)
    requires a <= i < |q|
    ensures q[i := x][a..] == q[a..][i - a := x] && q[i := x][..a] == q[..a]
  {
  }

  lemma Spliced<T>(q: seq<T>, a: nat, i: nat, p: nat, mid: seq<T>)
    requires a <= i <= p <= |q|
    ensures (q[..i] + mid + q[p..])[a..] == q[a..][..i - a] + mid + q[a..][p - a..]
  {
  }

  /** Where the request numbered `id` first stands in `s`; |s| if it does not. */
  function Position(s: seq<Request>, id: nat): (k: nat)
    ensures k <= |s|
    ensures k < |s| ==> s[k].id == id
    ensures forall i :: 0 <= i < k ==> s[i].id != id
  {
    if s == [] || s[0].id == id then 0 else 1 + Position(s[1..], id)
  }

  lemma SlotsWithout(running: seq<Request>, pending: seq<Request>, k: nat)
    requires k < |running|
    ensures var slots := Slots(running + pending);
            Slots(Removed(running, k) + pending) == slots[..k] + [] + slots[k + 1..]
  {
    var slots := Slots(running + pending);
    var without := slots[..k] + [] + slots[k + 1..];
    assert forall i :: 0 <= i < |without| ==> without[i] == slots[if i < k then i else i + 1];
  }

  /** `s` without position `k`. */
  function Removed(s: seq<Request>, k: nat): (t: seq<Request>)
    ensures forall r :: r in t ==> r in s
    ensures k < |s| ==> |t| == |s| - 1 && forall i :: 0 <= i < |t| ==> t[i] == if i < k then s[i] else s[i + 1]
  {
    if k < |s| then s[..k] + s[k + 1..] else s
  }

  ghost predicate Distinct(s: seq<Request>) {
    forall i, j :: 0 <= i < j < |s| ==> s[i].id != s[j].id
  }

  /** No request of `a` is in `b`. */
  ghost predicate Apart(a: seq<Request>, b: seq<Request>) {
    forall i, j :: 0 <= i < |a| && 0 <= j < |b| ==> a[i].id != b[j].id
  }

  /** No request is in two places, none of those dispatched is missing, and one leaves the queue only
      once its caller has heard the end. */
  ghost predicate Conserved(running: seq<Request>, pending: seq<Request>, settled: seq<Request>, dispatched: nat) {
    && Distinct(running) && Distinct(pending) && Distinct(settled)
    && Apart(running, pending) && Apart(running, settled) && Apart(pending, settled)
    && |running| + |pending| + |settled| == dispatched
    && (forall r :: r in running ==> r.id < dispatched)
    && (forall r :: r in pending ==> r.id < dispatched)
    && (forall r :: r in settled ==> r.id < dispatched && !r.Live())
  }

  lemma RemovedApart(s: seq<Request>, k: nat, others: seq<Request>)
    requires k < |s| && Distinct(s) && Apart(s, others)
    ensures var t := Removed(s, k);
            Distinct(t) && Apart(t, others) && forall i :: 0 <= i < |t| ==> t[i].id != s[k].id
  {
    var t := Removed(s, k);
    assert forall i :: 0 <= i < |t| ==> t[i] == s[if i < k then i else i + 1];
  }

  /** A running request leaves the queue. */
  lemma ConservedSettle(running: seq<Request>, pending: seq<Request>, settled: seq<Request>, n: nat, k: nat, final: Request)
    requires Conserved(running, pending, settled, n) && k < |running|
    requires final.id == running[k].id && !final.Live()
    ensures Conserved(Removed(running, k), pending, settled + [final], n)
  {
    RemovedApart(running, k, pending);
    RemovedApart(running, k, settled);
    DistinctInsert(settled, |settled|, final);
    InsertedApart(settled, |settled|, final, pending);
    InsertedApart(settled, |settled|, final, Removed(running, k));
    assert Inserted(settled, |settled|, final) == settled + [final];
    hide Removed, Inserted, Distinct;
  }

  /** The same, for the first of them. */
  lemma ConservedHead(running: seq<Request>, pending: seq<Request>, settled: seq<Request>, n: nat, final: Request)
    requires Conserved(running, pending, settled, n) && running != []
    requires final.id == running[0].id && !final.Live()
    ensures Conserved(running[1..], pending, settled + [final], n)
  {
    hide Conserved;
    ConservedSettle(running, pending, settled, n, 0, final);
    assert Removed(running, 0) == running[1..];
  }

  function Inserted(s: seq<Request>, j: nat, r: Request): (t: seq<Request>)
    requires j <= |s|
    ensures |t| == |s| + 1
    ensures forall i :: 0 <= i < |t| ==> t[i] == if i < j then s[i] else if i == j then r else s[i - 1]
  {
    s[..j] + [r] + s[j..]
  }

  lemma DistinctInsert(s: seq<Request>, j: nat, r: Request)
    requires Distinct(s) && j <= |s| && forall i :: 0 <= i < |s| ==> s[i].id != r.id
    ensures Distinct(Inserted(s, j, r))
  {
    var t := Inserted(s, j, r);
    forall a, b | 0 <= a < b < |t|
      ensures t[a].id != t[b].id
    {
      assert b > j ==> t[b] == s[b - 1];
    }
  }

  /** A running request goes back to pending, at position j there. */
  lemma ConservedReturn(running: seq<Request>, pending: seq<Request>, settled: seq<Request>, n: nat, k: nat, r: Request, j: nat)
    requires Conserved(running, pending, settled, n) && k < |running| && r.id == running[k].id
    requires j <= |pending|
    ensures Conserved(Removed(running, k), Inserted(pending, j, r), settled, n)
  {
    DistinctInsert(pending, j, r);
    RemovedApart(running, k, pending);
    RemovedApart(running, k, settled);
    InsertedApart(pending, j, r, Removed(running, k));
    InsertedApart(pending, j, r, settled);
    hide Removed, Inserted, Distinct;
  }

  lemma InsertedApart(s: seq<Request>, j: nat, r: Request, others: seq<Request>)
    requires j <= |s| && (Apart(s, others) || Apart(others, s))
    requires forall i :: 0 <= i < |others| ==> others[i].id != r.id
    ensures Apart(Inserted(s, j, r), others) && Apart(others, Inserted(s, j, r))
    ensures forall q :: q in Inserted(s, j, r) ==> q == r || q in s
  {
    var t := Inserted(s, j, r);
    assert forall i :: 0 <= i < |t| ==> t[i] == r || t[i] == s[if i < j then i else i - 1];
  }

  /** All that runs goes back to pending. */
  lemma ConservedTogether(running: seq<Request>, pending: seq<Request>, settled: seq<Request>, n: nat)
    requires Conserved(running, pending, settled, n)
    ensures Conserved([], running + pending, settled, n)
  {
    var all := running + pending;
    assert forall i :: 0 <= i < |all| ==> all[i] == if i < |running| then running[i] else pending[i - |running|];
  }

  /** Fields change, numbers do not. */
  lemma ConservedSameIds(running: seq<Request>, pending: seq<Request>, settled: seq<Request>, n: nat,
      running': seq<Request>, pending': seq<Request>)
    requires Conserved(running, pending, settled, n)
    requires |running'| == |running| && forall i :: 0 <= i < |running| ==> running'[i].id == running[i].id
    requires |pending'| == |pending| && forall i :: 0 <= i < |pending| ==> pending'[i].id == pending[i].id
    ensures Conserved(running', pending', settled, n)
  {
  }

  ghost function IdSet(s: seq<Request>): (ids: set<nat>)
    ensures forall r :: r in s ==> r.id in ids
    ensures forall id :: id in ids ==> exists r :: r in s && r.id == id
  {
    set r | r in s :: r.id
  }

  lemma {:induction false} IdSetSize(s: seq<Request>)
    requires Distinct(s)
    ensures |IdSet(s)| == |s|
  {
    if s != [] {
      IdSetSize(s[1..]);
      assert s == [s[0]] + s[1..];
      assert IdSet(s) == {s[0].id} + IdSet(s[1..]);
    }
  }

  ghost function UpTo(n: nat): (ids: set<nat>)
    ensures |ids| == n && forall id: nat :: id in ids <==> id < n
  {
    if n == 0 then {} else UpTo(n - 1) + {n - 1}
  }

  lemma SubsetSize(a: set<nat>, b: set<nat>)
    requires a <= b && |a| == |b|
    ensures a == b
  {
    assert b == a + (b - a);
  }

  /** n different requests numbered below n leave no number out. */
  lemma Pigeonhole(s: seq<Request>, n: nat, id: nat)
    requires Distinct(s) && |s| == n && forall r :: r in s ==> r.id < n
    requires id < n
    ensures exists r :: r in s && r.id == id
  {
    IdSetSize(s);
    SubsetSize(IdSet(s), UpTo(n));
    assert id in IdSet(s);
  }

  class Client {
    var queue: seq<Option<Request>>
    var runningIdx: nat
    var pendingIdx: nat

    ghost var running: seq<Request>
    ghost var pending: seq<Request>
    /** Requests that left the queue, as they were then. */
    ghost var settled: seq<Request>
    /** How many requests were ever dispatched; they are numbered in that order. */
    var dispatched: nat

    /** The queue holds the two lists, one behind the other, behind the cleared slots. */
    ghost predicate Sectioned()
      reads this
    {
      && runningIdx + |running| == pendingIdx <= |queue|
      && (forall i :: 0 <= i < runningIdx ==> queue[i].None?)
      && queue[runningIdx..] == Slots(running + pending)
    }

    ghost predicate Valid()
      reads this
    {
      Sectioned() && Conserved(running, pending, settled, dispatched)
    }

    /** Every number given out is found again, and a caller still waiting is found in the queue. */
    lemma NoRequestLost(id: nat) returns (r: Request)
      requires Valid() && id < dispatched
      ensures r.id == id && (r in running || r in pending || r in settled)
      ensures r.Live() ==> r in running || r in pending
    {
      var all := running + pending + settled;
      Pigeonhole(all, dispatched, id);
      r :| r in all && r.id == id;
    }

    constructor ()
      ensures Valid()
      ensures running == pending == settled == [] && dispatched == 0
    {
      queue, runningIdx, pendingIdx := [], 0, 0;
      running, pending, settled, dispatched := [], [], [], 0;
    }

    method Push(request: Request)
      modifies this`queue
      ensures queue == old(queue) + [Some(request)]
    {
      queue := queue + [Some(request)];
    }

    /** kDispatch: a new request goes to the end. */
    method Dispatch(request: Request)
      requires Valid() && request.id == dispatched
      modifies this`queue, this`pending, this`dispatched
      ensures Valid()
      ensures pending == old(pending) + [request] && dispatched == old(dispatched) + 1
    {
      Push(request);
      pending := pending + [request];
      dispatched := dispatched + 1;
    }

    /** A slot and its place in the two lists are overwritten together. */
    method Overwrite(index: nat, request: Request)
      requires Sectioned() && runningIdx <= index < |queue|
      modifies this`queue, this`running, this`pending
      ensures Sectioned() && queue == old(queue)[index := Some(request)]
      ensures if index < pendingIdx
              then running == old(running)[index - runningIdx := request] && pending == old(pending)
              else running == old(running) && pending == old(pending)[index - pendingIdx := request]
    {
      var k := index - runningIdx;
      SlotsUpdated(running, pending, k, request);
      UpdatedTail(queue, runningIdx, index, Some(request));
      hide Slots;
      queue := queue[index := Some(request)];
      if index < pendingIdx {
        running := running[k := request];
      } else {
        pending := pending[k - |running| := request];
      }
    }

    /** The field writes of an event handler on the request in a slot. */
    method Update(index: nat, request: Request)
      requires Valid() && runningIdx <= index < |queue| && queue[index].value.id == request.id
      modifies this`queue, this`running, this`pending
      ensures Valid() && queue == old(queue)[index := Some(request)]
      ensures if index < pendingIdx
              then running == old(running)[index - runningIdx := request] && pending == old(pending)
              else running == old(running) && pending == old(pending)[index - pendingIdx := request]
    {
      InSection();
      ghost var run, rest := running, pending;
      Overwrite(index, request);
      ConservedSameIds(run, rest, settled, dispatched, running, pending);
    }

    /** In-order completion: the head's slot is cleared and the index moves. */
    method ClearHead()
      requires Sectioned() && running != []
      modifies this`queue, this`runningIdx, this`running
      ensures Sectioned() && running == old(running)[1..]
    {
      queue := queue[runningIdx := None];
      runningIdx := runningIdx + 1;
      running := running[1..];
    }

    /** kPendingIdx++ */
    method Advance()
      requires Valid() && pending != []
      modifies this`pendingIdx, this`running, this`pending
      ensures Valid()
      ensures running == old(running) + [old(pending)[0]] && pending == old(pending)[1..]
    {
      pendingIdx := pendingIdx + 1;
      assert running + pending == running + [pending[0]] + pending[1..];
      running, pending := running + [pending[0]], pending[1..];
    }

    /** kPendingIdx++ for a request that has left the queue meanwhile: the index passes the end. */
    method Overshoot()
      requires Valid() && pending == []
      modifies this`pendingIdx
      ensures pendingIdx == |queue| + 1 && !Sectioned()
    {
      pendingIdx := pendingIdx + 1;
    }

    /** kQueue.splice(kPendingIdx, 1), once the request there is over. */
    method DropPending()
      requires Valid() && pending != [] && !pending[0].Live()
      modifies this`queue, this`pending, this`settled
      ensures Valid()
      ensures pending == old(pending)[1..] && settled == old(settled) + [old(pending)[0]]
    {
      queue := queue[..pendingIdx] + queue[pendingIdx + 1..];
      settled := settled + [pending[0]];
      pending := pending[1..];
    }

    /** A pending request that turns out aborted, or whose write is refused, leaves the queue failed. */
    method FailPending()
      requires Valid() && pending != []
      modifies this`queue, this`running, this`pending, this`settled
      ensures Valid() && running == old(running) && pending == old(pending)[1..]
      ensures settled == old(settled) + [old(pending)[0].Failed()]
    {
      hide Conserved;
      InSection();
      Update(pendingIdx, queue[pendingIdx].value.Failed());
      DropPending();
    }

    /** completeRequest (client-h2.js): take a request out of the running section wherever it stands
        there, and do nothing if it is not there. */
    method CompleteRequest(id: nat, resetPendingIdx: bool)
      requires Sectioned()
      modifies this`queue, this`runningIdx, this`pendingIdx, this`running
      ensures Sectioned() && running == Removed(old(running), Position(old(running), id))
    {
      InSection();
      if runningIdx < pendingIdx && queue[runningIdx].value.id == id {
        ClearHead();
        return;
      }
      var index := IndexOf(id);
      if index == |queue| || index >= pendingIdx {
        return;
      }
      SpliceRunning(index);
      if resetPendingIdx && pendingIdx < runningIdx {
        assert false; // the clamp to runningIdx is never needed
      }
    }

    /** queue.splice(index, 1) inside the running section. */
    method SpliceRunning(index: nat)
      requires Sectioned() && runningIdx <= index < pendingIdx
      modifies this`queue, this`pendingIdx, this`running
      ensures Sectioned() && pendingIdx == old(pendingIdx) - 1
      ensures running == Removed(old(running), index - runningIdx)
    {
      hide Slots, Removed;
      ghost var k := index - runningIdx;
      SlotsWithout(running, pending, k);
      Spliced(queue, runningIdx, index, index + 1, []);
      queue := queue[..index] + [] + queue[index + 1..];
      pendingIdx := pendingIdx - 1;
      running := Removed(running, k);
    }

    /** The slots, read through the two lists. */
    lemma InSection()
      requires Sectioned()
      ensures forall i :: runningIdx <= i < pendingIdx ==> queue[i] == Some(running[i - runningIdx])
      ensures forall i :: pendingIdx <= i < |queue| ==> queue[i] == Some(pending[i - pendingIdx])
    {
      assert forall i :: runningIdx <= i < |queue| ==> queue[i] == queue[runningIdx..][i - runningIdx];
    }

    /** queue.indexOf(request, runningIdx); |queue| stands for -1. */
    method IndexOf(id: nat) returns (index: nat)
      requires Sectioned()
      ensures runningIdx <= index <= |queue|
      ensures if Position(running, id) < |running| then index == runningIdx + Position(running, id)
              else index == pendingIdx + Position(pending, id)
    {
      InSection();
      ghost var p, q := Position(running, id), Position(pending, id);
      ghost var target := if p < |running| then runningIdx + p else pendingIdx + q;
      index := runningIdx;
      while index < |queue| && queue[index].value.id != id
        invariant runningIdx <= index <= target
      {
        index := index + 1;
      }
    }

    /** kQueue.splice(kPendingIdx, 0, request) */
    method InsertPending(request: Request)
      requires Sectioned()
      modifies this`queue, this`pending
      ensures Sectioned() && pending == [request] + old(pending)
    {
      hide Slots;
      Spliced(queue, runningIdx, pendingIdx, pendingIdx, [Some(request)]);
      SlotsCut(running, pending, |running|, [request]);
      assert running[..|running|] == running && Slots([request]) == [Some(request)];
      queue := queue[..pendingIdx] + [Some(request)] + queue[pendingIdx..];
      pending := [request] + pending;
    }

    /** requeueUnsentRequest, and then the splice of _resume for a write that returned false: putting
        the request back one past the pending index and cutting the pending index away leaves it
        where it was. */
    method RequeueThenDrop()
      requires Sectioned() && pending != []
      modifies this`queue
      ensures queue == old(queue)
    {
      var request := queue[pendingIdx];
      queue := queue[..pendingIdx + 1] + [request] + queue[pendingIdx + 1..];
      queue := queue[..pendingIdx] + queue[pendingIdx + 1..];
    }

    /** kQueue is cut at `index` inside the running section, `returned` pushed there, and the old pending
        section pushed behind; the cut becomes the pending index. */
    method CutAndPush(index: nat, returned: seq<Request>)
      requires Sectioned() && runningIdx <= index <= pendingIdx
      modifies this`queue, this`pendingIdx, this`running, this`pending
      ensures Sectioned() && pendingIdx == index
      ensures running == old(running)[..index - runningIdx] && pending == returned + old(pending)
    {
      ghost var k := index - runningIdx;
      Spliced(queue, runningIdx, index, pendingIdx, Slots(returned));
      SlotsCut(running, pending, k, returned);
      queue := queue[..index] + Slots(returned) + queue[pendingIdx..];
      pendingIdx := index;
      running, pending := running[..k], returned + pending;
    }

    /** kPendingIdx = kRunningIdx: what ran is pending again, ahead of the rest. */
    method ReturnRunning()
      requires Valid()
      modifies this`pendingIdx, this`running, this`pending
      ensures Valid()
      ensures running == [] && pending == old(running + pending)
    {
      hide Conserved, Slots;
      ConservedTogether(running, pending, settled, dispatched);
      pendingIdx := runningIdx;
      ghost var all := running + pending;
      running, pending := [], all;
      assert running + pending == all;
    }

    /** The end of resume(): cleared slots are dropped once there are more than 256. */
    method Compact()
      requires Sectioned()
      modifies this`queue, this`runningIdx, this`pendingIdx
      ensures Sectioned() && runningIdx == if old(runningIdx) > 256 then 0 else old(runningIdx)
    {
      if runningIdx > 256 {
        queue := queue[runningIdx..];
        pendingIdx := pendingIdx - runningIdx;
        runningIdx := 0;
      }
    }

    /** onError: an error that no running request caused, and that no reconnect repairs, fails the
        whole queue; any other leaves it alone. */
    method OnError(recoverable: bool)
      requires Valid()
      modifies this`queue, this`pending, this`settled
      ensures Valid()
      ensures if running == [] && !recoverable
              then pending == [] && settled == old(settled) + AllFailed(old(pending))
              else pending == old(pending) && settled == old(settled)
    {
      if pendingIdx - runningIdx == 0 && !recoverable {
        queue := queue[..runningIdx];
        ghost var failed := AllFailed(pending);
        assert forall i :: 0 <= i < |failed| ==> failed[i].id == pending[i].id && pending[i] in pending;
        settled := settled + failed;
        pending := [];
      }
    }
  }

  function AllFailed(s: seq<Request>): (t: seq<Request>)
    ensures |t| == |s| && forall i :: 0 <= i < |s| ==> t[i] == s[i].Failed()
  {
    seq(|s|, i requires 0 <= i < |s| => s[i].Failed())
  }
}
