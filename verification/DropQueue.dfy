/** The bounded drop-oldest queue between the bridge's threads: crates/mmbus-bridge/src/queue.rs. */
module DropQueue {
  import opened Bytes

  /** The queue with its history: what was accepted, what was handed out, how many evictions were reported. */
  datatype Queue<T> = Queue(capacity: nat, items: seq<T>, closed: bool,
                            accepted: seq<T>, received: seq<T>, dropped: nat)

  /** One critical section of the queue's mutex. */
  datatype Op<T> = Send(item: T) | Pop | Close

  function Empty<T>(capacity: nat): Queue<T> {
    Queue(capacity, [], false, [], [], 0)
  }

  function Step<T>(q: Queue<T>, op: Op<T>): Queue<T> {
    match op
    case Send(x) =>
      if q.closed then q
      else if |q.items| >= q.capacity && q.items != [] then
        q.(items := q.items[1..] + [x], accepted := q.accepted + [x], dropped := q.dropped + 1)
      else
        q.(items := q.items + [x], accepted := q.accepted + [x])
    case Pop =>
      if q.items == [] then q
      else q.(items := q.items[1..], received := q.received + [q.items[0]])
    case Close => q.(closed := true)
  }

  /** Every interleaving of senders and the receiver is some sequence of critical sections. */
  function Run<T>(q: Queue<T>, ops: seq<Op<T>>): Queue<T> {
    if ops == [] then q else Step(Run(q, ops[..|ops| - 1]), ops[|ops| - 1])
  }

  ghost predicate Increasing(idx: seq<nat>) {
    forall i, j :: 0 <= i < j < |idx| ==> idx[i] < idx[j]
  }

  /** `idx` tells, in order, which accepted items those of `out` are; the last `queued` are the newest ones. */
  ghost predicate PickedAt<T>(out: seq<T>, queued: nat, accepted: seq<T>, idx: seq<nat>) {
    && Increasing(idx)
    && |idx| == |out| >= queued
    && (forall i :: 0 <= i < |idx| ==> idx[i] < |accepted| && accepted[idx[i]] == out[i])
    && (forall j :: |idx| - queued <= j < |idx| ==> idx[j] == |accepted| - |idx| + j)
  }

  /** `out` is an in-order selection of the accepted items that ends with the `queued` newest ones. */
  ghost predicate InOrder<T>(out: seq<T>, queued: nat, accepted: seq<T>) {
    exists idx :: PickedAt(out, queued, accepted, idx)
  }

  ghost predicate Conserved<T>(q: Queue<T>) {
    && |q.items| <= q.capacity
    && |q.accepted| == |q.received| + q.dropped + |q.items|
    && InOrder(q.received + q.items, |q.items|, q.accepted)
  }

  lemma {:induction false} PickAppends<T>(out: seq<T>, queued: nat, accepted: seq<T>, x: T)
    requires InOrder(out, queued, accepted)
    ensures InOrder(out + [x], queued + 1, accepted + [x])
  {
    var idx :| PickedAt(out, queued, accepted, idx);
    var at: nat := |accepted|;
    var idx': seq<nat> := idx + [at];
    assert PickedAt(out + [x], queued + 1, accepted + [x], idx');
  }

  /** Evicting the oldest queued item takes its index out of the picture. */
  lemma {:induction false} PickEvicts<T>(before: seq<T>, items: seq<T>, accepted: seq<T>)
    requires items != [] && InOrder(before + items, |items|, accepted)
    ensures InOrder(before + items[1..], |items| - 1, accepted)
  {
    var idx :| PickedAt(before + items, |items|, accepted, idx);
    var n := |before|;
    var idx': seq<nat> := idx[..n] + idx[n + 1..];
    assert before + items[1..] == (before + items)[..n] + (before + items)[n + 1..];
    assert PickedAt(before + items[1..], |items| - 1, accepted, idx');
  }

  lemma {:induction false} StepConserves<T>(q: Queue<T>, op: Op<T>)
    requires q.capacity > 0 && Conserved(q)
    ensures Step(q, op).capacity == q.capacity && Conserved(Step(q, op))
  {
    hide InOrder;
    var q' := Step(q, op);
    if op.Send? && !q.closed {
      if |q.items| >= q.capacity {
        PickEvicts(q.received, q.items, q.accepted);
        PickAppends(q.received + q.items[1..], |q.items| - 1, q.accepted, op.item);
        assert q'.received + q'.items == q.received + q.items[1..] + [op.item];
      } else {
        PickAppends(q.received + q.items, |q.items|, q.accepted, op.item);
        assert q'.received + q'.items == q.received + q.items + [op.item];
      }
    } else if op.Pop? && q.items != [] {
      assert q'.received + q'.items == q.received + q.items;
      Weaken(q.received + q.items, |q.items|, q.accepted);
    }
  }

  lemma {:induction false} Weaken<T>(out: seq<T>, queued: nat, accepted: seq<T>)
    requires queued > 0 && InOrder(out, queued, accepted)
    ensures InOrder(out, queued - 1, accepted)
  {
    var idx :| PickedAt(out, queued, accepted, idx);
    assert PickedAt(out, queued - 1, accepted, idx);
  }

  /** Every run: nothing is reordered, duplicated or lost without being reported. */
  lemma {:induction false} RunConserves<T>(capacity: nat, ops: seq<Op<T>>)
    requires capacity > 0
    ensures Run(Empty(capacity), ops).capacity == capacity && Conserved(Run(Empty(capacity), ops))
  {
    if ops == [] {
      assert PickedAt<T>([], 0, [], []);
      assert [] + Empty<T>(capacity).items == [];
    } else {
      RunConserves(capacity, ops[..|ops| - 1]);
      StepConserves(Run(Empty(capacity), ops[..|ops| - 1]), ops[|ops| - 1]);
    }
  }

  /** What is queued is always the newest part of what was accepted. */
  lemma {:induction false} QueuedIsNewest<T>(q: Queue<T>)
    requires Conserved(q)
    ensures q.items == q.accepted[|q.accepted| - |q.items|..]
  {
    var idx :| PickedAt(q.received + q.items, |q.items|, q.accepted, idx);
    forall i | 0 <= i < |q.items|
      ensures q.items[i] == q.accepted[|q.accepted| - |q.items|..][i]
    {
      assert (q.received + q.items)[|q.received| + i] == q.items[i];
      assert idx[|q.received| + i] == |q.accepted| - |q.items| + i;
    }
  }

  /** One critical section, exactly: a send to an open queue that is full evicts the oldest item and reports it, one to
      an open queue with room evicts nothing, one to a closed queue does nothing; the receiver gets the oldest. */
  lemma {:induction false} StepExact<T>(q: Queue<T>, op: Op<T>)
    requires q.capacity > 0 && |q.items| <= q.capacity
    ensures var q' := Step(q, op);
            && q'.dropped == q.dropped + (if op.Send? && !q.closed && |q.items| == q.capacity then 1 else 0)
            && |q'.received| == |q.received| + (if op.Pop? && q.items != [] then 1 else 0)
            && q'.received + q'.items
               == (if op.Send? && !q.closed && |q.items| == q.capacity then q.received + q.items[1..]
                   else q.received + q.items)
                  + (if op.Send? && !q.closed then [op.item] else [])
            && q'.accepted == q.accepted + (if op.Send? && !q.closed then [op.item] else [])
            && (q'.closed <==> q.closed || op.Close?)
  {
    var q' := Step(q, op);
    if op.Send? && !q.closed && |q.items| == q.capacity {
      assert q'.received + q'.items == (q.received + q.items[1..]) + [op.item];
    } else if op.Send? && !q.closed {
      assert q'.received + q'.items == (q.received + q.items) + [op.item];
    }
  }

  /** What the senders offer before the queue is closed. */
  function Offered<T>(ops: seq<Op<T>>): seq<T> {
    if ops == [] || ops[0].Close? then []
    else (if ops[0].Send? then [ops[0].item] else []) + Offered(ops[1..])
  }

  lemma {:induction false} OfferedMore<T>(ops: seq<Op<T>>, op: Op<T>)
    ensures Offered(ops + [op]) ==
            Offered(ops) + (if op.Send? && (forall o :: o in ops ==> !o.Close?) then [op.item] else [])
  {
    if ops == [] {
      assert [op][1..] == [] && [op][0] == op;
    } else {
      assert (ops + [op])[1..] == ops[1..] + [op] && (ops + [op])[0] == ops[0];
      assert forall o :: o in ops <==> o == ops[0] || o in ops[1..];
      if !ops[0].Close? { OfferedMore(ops[1..], op); }
    }
  }

  /** Accepted is what was offered before the close; and a queue that is never offered more than it holds loses
      nothing: whatever the interleaving, what was handed out and what is queued make up what was offered. */
  lemma {:induction false} RunAccepts<T>(capacity: nat, ops: seq<Op<T>>)
    requires capacity > 0
    ensures var q := Run(Empty(capacity), ops);
            && q.accepted == Offered(ops) && (q.closed <==> exists o :: o in ops && o.Close?)
            && (|Offered(ops)| <= capacity ==> q.dropped == 0 && q.received + q.items == Offered(ops))
  {
    if ops == [] {
    } else {
      var n := |ops| - 1;
      var q := Run(Empty(capacity), ops[..n]);
      RunAccepts(capacity, ops[..n]);
      RunConserves(capacity, ops[..n]);
      StepExact(q, ops[n]);
      OfferedMore(ops[..n], ops[n]);
      assert ops == ops[..n] + [ops[n]];
      assert forall o :: o in ops <==> o in ops[..n] || o == ops[n];
      hide Offered, Step, InOrder;
    }
  }

  // ── The shared object ───────────────────────────────────────────────────────

  /** What other threads do while the receiver sleeps on the condition variable, and why it woke. */
  datatype Wait<T> = Wait(ops: seq<Op<T>>, timedOut: bool)

  function RunAll<T>(q: Queue<T>, waits: seq<Wait<T>>): Queue<T> {
    if waits == [] then q else Run(RunAll(q, waits[..|waits| - 1]), waits[|waits| - 1].ops)
  }

  class Channel<T> {
    const capacity: nat
    var queue: seq<T>
    var closed: bool
    ghost var accepted: seq<T>
    ghost var received: seq<T>
    ghost var dropped: nat

    ghost function View(): Queue<T>
      reads this
    {
      Queue(capacity, queue, closed, accepted, received, dropped)
    }

    constructor (capacity: nat)
      requires capacity > 0
      ensures View() == Empty(capacity)
    {
      this.capacity := capacity;
      queue, closed := [], false;
      accepted, received, dropped := [], [], 0;
    }

    method Send(item: T) returns (evicted: nat)
      requires capacity > 0
      modifies this
      ensures View() == Step(old(View()), Op.Send(item))
      ensures evicted == dropped - old(dropped)
    {
      if closed { return 0; }
      evicted := 0;
      if |queue| >= capacity {
        queue := queue[1..];
        evicted := 1;
      }
      queue := queue + [item];
      accepted, dropped := accepted + [item], dropped + evicted;
    }

    method CloseLast()
      modifies this
      ensures View() == Step(old(View()), Close)
    {
      closed := true;
    }

    /** The other threads' critical sections during one wait. */
    method Others(ops: seq<Op<T>>)
      requires capacity > 0 && forall op :: op in ops ==> !op.Pop?
      modifies this
      ensures View() == Run(old(View()), ops)
    {
      for i := 0 to |ops|
        invariant View() == Run(old(View()), ops[..i])
      {
        assert ops[..i + 1][..i] == ops[..i];
        if ops[i].Send? {
          var _ := Send(ops[i].item);
        } else {
          CloseLast();
        }
      }
      assert ops[..|ops|] == ops;
    }

    /** `recv_timeout`: `waits` lists the sleeps that fit before the deadline. An item is the oldest queued one;
        without one, the queue is empty, and it was closed or the time was up. */
    method RecvTimeout(waits: seq<Wait<T>>) returns (item: Option<T>, ghost slept: nat)
      requires capacity > 0 && forall w, op :: w in waits && op in w.ops ==> !op.Pop?
      modifies this
      ensures slept <= |waits|
      ensures var q := RunAll(old(View()), waits[..slept]);
              match item
              case Some(x) => q.items != [] && x == q.items[0] && View() == Step(q, Pop)
              case None => q.items == [] && View() == q &&
                           (q.closed || slept == |waits| || (slept > 0 && waits[slept - 1].timedOut))
    {
      slept := 0;
      var i := 0;
      while true
        invariant slept == i <= |waits|
        invariant View() == RunAll(old(View()), waits[..i])
        decreases |waits| - i
      {
        if queue != [] {
          item := Some(queue[0]);
          received, queue := received + [queue[0]], queue[1..];
          return;
        }
        if closed { return None, slept; }
        if i == |waits| { return None, slept; }
        Others(waits[i].ops);
        assert waits[..i + 1][..i] == waits[..i];
        i, slept := i + 1, slept + 1;
        if waits[i - 1].timedOut && queue == [] { return None, slept; }
      }
    }
  }
}
