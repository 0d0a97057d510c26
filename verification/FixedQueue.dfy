/** lib/dispatcher/fixed-queue.js: a queue kept as a chain of ring buffers of fixed size, proved to be a
plain first-in first-out sequence. */
module FixedQueue {
  import opened Wrappers

  const K_SIZE: nat := 2048
  const K_MASK: bv16 := 2047

  /** One step past a slot; the original masks with K_SIZE - 1. */
  function Wrap(i: nat): (j: nat)
    requires i <= K_SIZE
    ensures j < K_SIZE
  {
    if i < K_SIZE then i else 0
  }

  /** Masking a step past a slot is wrapping it. */
  lemma MaskWraps(i: bv16)
    requires i <= 2048
    ensures (i & K_MASK) as nat == Wrap(i as nat)
  {
    assert i & K_MASK == if i < 2048 then i else 0;
  }

  /** The slot `k` places past `bottom`, round the ring. */
  function Slot(bottom: nat, k: nat): (j: nat)
    requires bottom < K_SIZE && k <= K_SIZE
    ensures j < K_SIZE
  {
    if bottom + k < K_SIZE then bottom + k else bottom + k - K_SIZE
  }

  class FixedCircularBuffer<T> {
    var bottom: nat
    var top: nat
    const list: array<Option<T>>
    var next: FixedCircularBuffer?<T>
    /** The items, from bottom to top. */
    ghost var contents: seq<T>

    /** The items fill the slots from bottom on, and every other slot is undefined; one always is. */
    ghost predicate Valid()
      reads this`bottom, this`top, this`contents, list
    {
      && list.Length == K_SIZE && bottom < K_SIZE && |contents| < K_SIZE
      && top == Slot(bottom, |contents|)
      && (forall k :: 0 <= k < |contents| ==> list[Slot(bottom, k)] == Some(contents[k]))
      && (forall k :: |contents| <= k < K_SIZE ==> list[Slot(bottom, k)].None?)
    }

    constructor ()
      ensures Valid() && contents == [] && next == null && fresh(list)
    {
      bottom, top, next, contents := 0, 0, null, [];
      list := new Option<T>[K_SIZE](_ => None);
    }

    predicate IsEmpty()
      requires Valid()
      reads this, list
      ensures IsEmpty() <==> contents == []
    {
      top == bottom
    }

    predicate IsFull()
      requires Valid()
      reads this, list
      ensures IsFull() <==> |contents| == K_SIZE - 1
    {
      Wrap(top + 1) == bottom
    }

    method Push(data: T)
      requires Valid() && !IsFull()
      modifies this`top, this`contents, list
      ensures Valid() && contents == old(contents) + [data]
    {
      list[top] := Some(data);
      top := Wrap(top + 1);
      contents := contents + [data];
    }

    method Shift() returns (item: Option<T>)
      requires Valid()
      modifies this`bottom, this`contents, list
      ensures Valid()
      ensures if old(contents) == [] then item.None? && contents == []
              else item == Some(old(contents)[0]) && contents == old(contents)[1..]
    {
      assert list[bottom] == list[Slot(bottom, 0)];
      item := list[bottom];
      if item.None? {
        return;
      }
      ghost var b := bottom;
      list[bottom] := None;
      bottom := Wrap(bottom + 1);
      contents := contents[1..];
      assert forall k :: 0 <= k < K_SIZE - 1 ==> Slot(bottom, k) == Slot(b, k + 1);
      assert Slot(bottom, K_SIZE - 1) == b;
    }
  }

  function Concat<T>(parts: seq<seq<T>>): seq<T> {
    if parts == [] then [] else parts[0] + Concat(parts[1..])
  }

  lemma {:induction false} ConcatLast<T>(parts: seq<seq<T>>, last: seq<T>)
    ensures Concat(parts + [last]) == Concat(parts) + last
  {
    if parts == [] {
      assert parts + [last] == [last];
      assert Concat([last]) == last + Concat([]);
    } else {
      assert (parts + [last])[1..] == parts[1..] + [last];
      ConcatLast(parts[1..], last);
    }
  }

  /** An item more in the last part is an item more at the end. */
  lemma {:induction false} ConcatPush<T>(parts: seq<seq<T>>, item: T)
    requires parts != []
    ensures Concat(parts[|parts| - 1 := parts[|parts| - 1] + [item]]) == Concat(parts) + [item]
  {
    var n := |parts| - 1;
    var init := parts[..n];
    assert parts == init + [parts[n]] && parts[n := parts[n] + [item]] == init + [parts[n] + [item]];
    ConcatLast(init, parts[n]);
    ConcatLast(init, parts[n] + [item]);
  }

  class FixedQueue<T> {
    var head: FixedCircularBuffer<T>
    var tail: FixedCircularBuffer<T>
    /** The buffers from tail to head, and what each of them holds. */
    ghost var chain: seq<FixedCircularBuffer<T>>
    ghost var parts: seq<seq<T>>

    ghost function Repr(): set<object>
      reads this
    {
      (set b | b in chain :: b as object) + (set b | b in chain :: b.list as object)
    }

    /** `next` links the buffers up, each once and with slots of its own. */
    ghost predicate Linked()
      reads this, Repr()
    {
      && |chain| == |parts| > 0
      && tail == chain[0] && head == chain[|chain| - 1]
      && (forall i :: 0 <= i < |chain| ==> chain[i].Valid() && chain[i].contents == parts[i])
      && (forall i :: 0 <= i < |chain| - 1 ==> chain[i].next == chain[i + 1])
      && head.next == null
      && (forall i, j :: 0 <= i < j < |chain| ==> chain[i] != chain[j] && chain[i].list != chain[j].list)
    }

    /** Only a single buffer may be empty, which is why looking at the head tells whether the queue is. */
    ghost predicate Valid()
      reads this, Repr()
    {
      Linked() && (|chain| > 1 ==> forall i :: 0 <= i < |parts| ==> parts[i] != [])
    }

    /** The queue as a sequence. */
    ghost function Contents(): seq<T>
      reads this
    {
      Concat(parts)
    }

    constructor ()
      ensures Valid() && Contents() == [] && fresh(Repr())
    {
      var buffer := new FixedCircularBuffer<T>();
      head, tail := buffer, buffer;
      chain, parts := [buffer], [[]];
      new;
      assert Concat(parts) == [] + Concat([]);
    }

    lemma EndsOwned()
      requires Valid()
      ensures head in Repr() && head.list in Repr() && tail in Repr() && tail.list in Repr()
    {
      assert head in chain && tail in chain;
    }

    /** isEmpty looks at the head buffer only, and is right. */
    method IsEmpty() returns (empty: bool)
      requires Valid()
      ensures empty <==> Contents() == []
    {
      empty := head.IsEmpty();
      assert Concat(parts) == parts[0] + Concat(parts[1..]);
      if |parts| == 1 {
        assert parts[1..] == [];
      }
    }

    /** A full head gets a new buffer in front of it. */
    method Grow()
      requires Linked()
      modifies this`head, this`chain, this`parts, head`next
      ensures Linked() && chain == old(chain) + [head] && parts == old(parts) + [[]]
      ensures fresh(head) && fresh(head.list)
    {
      hide FixedCircularBuffer.Valid;
      var buffer := new FixedCircularBuffer<T>();
      head.next := buffer;
      head := buffer;
      chain := chain + [buffer];
      parts := parts + [[]];
    }

    method PushHead(data: T)
      requires Linked() && !head.IsFull()
      modifies this`parts, head`top, head`contents, head.list
      ensures Linked() && Contents() == old(Contents()) + [data]
      ensures parts == old(parts)[|parts| - 1 := old(parts)[|parts| - 1] + [data]]
    {
      hide FixedCircularBuffer.Valid, Concat;
      ConcatPush(parts, data);
      head.Push(data);
      parts := parts[|parts| - 1 := head.contents];
    }

    method Push(data: T)
      requires Valid()
      modifies this`head, this`chain, this`parts, head, head.list
      ensures Valid() && Contents() == old(Contents()) + [data] && fresh(Repr() - old(Repr()))
    {
      hide FixedCircularBuffer.Valid;
      if head.IsFull() {
        ConcatLast(parts, []);
        Grow();
        assert Contents() == old(Contents()) + [];
      }
      PushHead(data);
    }

    /** Shifts the tail buffer, which may leave it empty. */
    method ShiftTail() returns (item: Option<T>)
      requires Linked()
      modifies this`parts, tail`bottom, tail`contents, tail.list
      ensures Linked()
      ensures if old(parts)[0] == [] then item.None? && parts == old(parts)
              else item == Some(old(parts)[0][0]) && parts == old(parts)[0 := old(parts)[0][1..]]
    {
      hide FixedCircularBuffer.Valid;
      item := tail.Shift();
      parts := parts[0 := tail.contents];
    }

    /** If there is another buffer, it becomes the tail. */
    method DropTail()
      requires Linked() && parts[0] == [] && tail.next != null
      modifies this`tail, this`chain, this`parts, tail`next
      ensures Linked() && parts == old(parts)[1..] && chain == old(chain)[1..] && old(tail).next == null
    {
      hide FixedCircularBuffer.Valid;
      var buffer := tail;
      tail := buffer.next;
      buffer.next := null;
      chain, parts := chain[1..], parts[1..];
    }

    method Shift() returns (item: Option<T>)
      requires Valid()
      modifies this, tail, tail.list
      ensures Valid() && Repr() <= old(Repr())
      ensures if old(Contents()) == [] then item.None? && Contents() == []
              else item == Some(old(Contents())[0]) && Contents() == old(Contents())[1..]
    {
      hide FixedCircularBuffer.Valid;
      item := ShiftTail();
      assert Contents() == parts[0] + Concat(old(parts)[1..]) by {
        assert parts[1..] == old(parts)[1..];
      }
      if |parts| == 1 {
        assert parts[1..] == [];
      }
      if tail.IsEmpty() && tail.next != null {
        DropTail();
      }
    }
  }

  datatype Call<T> = Push(item: T) | Shift

  /** What the shifts of a run return, for a queue that is just a sequence. */
  function Shifted<T>(queue: seq<T>, calls: seq<Call<T>>): seq<Option<T>>
    decreases calls
  {
    if calls == [] then []
    else match calls[0]
      case Push(item) => Shifted(queue + [item], calls[1..])
      case Shift =>
        [if queue == [] then None else Some(queue[0])]
        + Shifted(if queue == [] then [] else queue[1..], calls[1..])
  }

  function Pushed<T>(calls: seq<Call<T>>): seq<T> {
    if calls == [] then [] else (if calls[0].Push? then [calls[0].item] else []) + Pushed(calls[1..])
  }

  function Items<T>(results: seq<Option<T>>): seq<T> {
    if results == [] then [] else (if results[0].Some? then [results[0].value] else []) + Items(results[1..])
  }

  /** What the queue holds after a run. */
  function Left<T>(queue: seq<T>, calls: seq<Call<T>>): seq<T>
    decreases calls
  {
    if calls == [] then queue
    else match calls[0]
      case Push(item) => Left(queue + [item], calls[1..])
      case Shift => Left(if queue == [] then [] else queue[1..], calls[1..])
  }

  lemma ItemsCons<T>(result: Option<T>, rest: seq<Option<T>>)
    ensures Items([result] + rest) == (if result.Some? then [result.value] else []) + Items(rest)
  {
    assert ([result] + rest)[1..] == rest;
  }

  lemma PushStep<T>(queue: seq<T>, calls: seq<Call<T>>)
    requires calls != [] && calls[0].Push?
    ensures var more := queue + [calls[0].item];
            && Shifted(queue, calls) == Shifted(more, calls[1..]) && Left(queue, calls) == Left(more, calls[1..])
            && queue + Pushed(calls) == more + Pushed(calls[1..])
  {
  }

  lemma ShiftStep<T>(queue: seq<T>, calls: seq<Call<T>>)
    requires calls != [] && calls[0].Shift?
    ensures var less := if queue == [] then [] else queue[1..];
            && Shifted(queue, calls) == [if queue == [] then None else Some(queue[0])] + Shifted(less, calls[1..])
            && Left(queue, calls) == Left(less, calls[1..]) && Pushed(calls) == Pushed(calls[1..])
  {
  }

  lemma Front<T>(queue: seq<T>, out: seq<T>, left: seq<T>, pushed: seq<T>)
    requires queue != [] && out + left == queue[1..] + pushed
    ensures [queue[0]] + out + left == queue + pushed
  {
    assert [queue[0]] + out + left == [queue[0]] + (out + left);
    assert [queue[0]] + (queue[1..] + pushed) == queue + pushed;
  }

  /** First in, first out: whatever the run, what came out followed by what is left is what went in, in order. */
  lemma {:induction false} ComesOutInOrder<T>(queue: seq<T>, calls: seq<Call<T>>)
    ensures Items(Shifted(queue, calls)) + Left(queue, calls) == queue + Pushed(calls)
    decreases calls
  {
    if calls == [] {
      assert queue + [] == [] + queue;
      return;
    }
    hide Items, Shifted, Left, Pushed;
    var rest := calls[1..];
    if calls[0].Push? {
      PushStep(queue, calls);
      ComesOutInOrder(queue + [calls[0].item], rest);
    } else if queue == [] {
      ShiftStep(queue, calls);
      ComesOutInOrder(queue, rest);
      ItemsCons(None, Shifted(queue, rest));
    } else {
      ShiftStep(queue, calls);
      ComesOutInOrder(queue[1..], rest);
      ItemsCons(Some(queue[0]), Shifted(queue[1..], rest));
      Front(queue, Items(Shifted(queue[1..], rest)), Left(queue[1..], rest), Pushed(rest));
    }
  }

  method Do<T>(fifo: FixedQueue<T>, calls: seq<Call<T>>) returns (results: seq<Option<T>>)
    requires fifo.Valid() && calls != []
    modifies fifo, fifo.Repr()
    ensures fifo.Valid() && fresh(fifo.Repr() - old(fifo.Repr()))
    ensures results + Shifted(fifo.Contents(), calls[1..]) == Shifted(old(fifo.Contents()), calls)
  {
    hide FixedCircularBuffer.Valid, FixedQueue.Valid, FixedQueue.Linked, FixedQueue.Contents;
    fifo.EndsOwned();
    match calls[0] {
      case Push(item) =>
        fifo.Push(item);
        results := [];
      case Shift =>
        var result := fifo.Shift();
        results := [result];
    }
  }

  /** Any run of pushes and shifts on the chain of rings returns what the plain sequence would. */
  method Run<T>(calls: seq<Call<T>>) returns (results: seq<Option<T>>)
    ensures results == Shifted([], calls)
  {
    hide FixedCircularBuffer.Valid, FixedQueue.Valid, FixedQueue.Linked, FixedQueue.Contents;
    var fifo := new FixedQueue<T>();
    results := [];
    for i := 0 to |calls|
      invariant fifo.Valid() && fresh(fifo) && fresh(fifo.Repr())
      invariant results + Shifted(fifo.Contents(), calls[i..]) == Shifted([], calls)
    {
      assert calls[i..][1..] == calls[i + 1..];
      var more := Do(fifo, calls[i..]);
      results := results + more;
    }
  }
}
