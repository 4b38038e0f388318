/** Ordered asynchronous delivery: a bounded queue, drained by one background worker. */
module OrderedDelivery {
  datatype Delivery = Delivery(event: nat, listeners: seq<string>)

  /** One call of one listener. */
  datatype Visit = Visit(event: nat, listener: string)

  /** The worker walks the listeners of the delivery in hand; `next` is the one it calls next. */
  datatype Hand = Empty | Holding(d: Delivery, next: nat)

  datatype Pipe = Pipe(
    capacity: nat,
    queue: seq<Delivery>,
    hand: Hand,
    closed: bool,
    stopped: bool,
    accepted: seq<Delivery>,
    handled: seq<Delivery>,
    visits: seq<Visit>)

  /** A buffer size below 1 means 100. */
  function Capacity(bufferSize: int): nat {
    if bufferSize < 1 then 100 else bufferSize
  }

  function NewPipe(bufferSize: int): Pipe {
    Pipe(Capacity(bufferSize), [], Empty, false, false, [], [], [])
  }

  datatype Reply = Accepted | QueueFull | Panics

  /** A send on the closed queue panics; a full queue rejects; otherwise the delivery is queued. */
  function Offer(p: Pipe, d: Delivery): (Pipe, Reply) {
    if p.closed then (p, Panics)
    else if |p.queue| >= p.capacity then (p, QueueFull)
    else (p.(queue := p.queue + [d], accepted := p.accepted + [d]), Accepted)
  }

  /** The worker's next action: call the next listener, put the delivery away, take another, or stop. */
  function Work(p: Pipe): Pipe {
    match p.hand
    case Holding(d, next) =>
      if next < |d.listeners| then
        p.(hand := Holding(d, next + 1), visits := p.visits + [Visit(d.event, d.listeners[next])])
      else p.(hand := Empty, handled := p.handled + [d])
    case Empty =>
      if p.queue != [] then p.(hand := Holding(p.queue[0], 0), queue := p.queue[1..])
      else if p.closed then p.(stopped := true)
      else p
  }

  function CloseQueue(p: Pipe): Pipe {
    p.(closed := true)
  }

  datatype Act = Publish(d: Delivery) | Worker | Closing

  function Step(p: Pipe, a: Act): Pipe {
    match a
    case Publish(d) => Offer(p, d).0
    case Worker => if p.stopped then p else Work(p)
    case Closing => CloseQueue(p)
  }

  function Run(p: Pipe, acts: seq<Act>): Pipe {
    if acts == [] then p else Step(Run(p, acts[..|acts| - 1]), acts[|acts| - 1])
  }

  // ---------------------------------------------------------------- conservation and order

  function InHand(h: Hand): seq<Delivery> {
    if h.Holding? then [h.d] else []
  }

  /** The first n visits of a delivery, in the order of its listeners. */
  function Visits(d: Delivery, n: nat): seq<Visit>
    requires n <= |d.listeners|
  {
    seq(n, k requires 0 <= k < n => Visit(d.event, d.listeners[k]))
  }

  function AllVisits(ds: seq<Delivery>): seq<Visit> {
    if ds == [] then [] else AllVisits(ds[..|ds| - 1]) + Visits(ds[|ds| - 1], |ds[|ds| - 1].listeners|)
  }

  predicate Conserves(p: Pipe) {
    && p.accepted == p.handled + InHand(p.hand) + p.queue
    && |p.queue| <= p.capacity
    && (p.hand.Holding? ==> p.hand.next <= |p.hand.d.listeners|)
    && p.visits == AllVisits(p.handled) + (if p.hand.Holding? then Visits(p.hand.d, p.hand.next) else [])
    && (p.stopped ==> p.closed && p.hand == Empty && p.queue == [])
  }

  lemma VisitsGrow(d: Delivery, n: nat)
    requires n < |d.listeners|
    ensures Visits(d, n + 1) == Visits(d, n) + [Visit(d.event, d.listeners[n])]
  {
  }

  lemma {:induction false} AllVisitsGrow(ds: seq<Delivery>, d: Delivery)
    ensures AllVisits(ds + [d]) == AllVisits(ds) + Visits(d, |d.listeners|)
  {
    assert (ds + [d])[..|ds|] == ds;
  }

  lemma {:induction false} VisitConserves(p: Pipe)
    requires Conserves(p) && p.hand.Holding? && p.hand.next < |p.hand.d.listeners|
    ensures Conserves(Work(p))
  {
    var d, next := p.hand.d, p.hand.next;
    VisitsGrow(d, next);
    assert Work(p).visits == AllVisits(p.handled) + (Visits(d, next) + [Visit(d.event, d.listeners[next])]);
  }

  lemma {:induction false} PutAwayConserves(p: Pipe)
    requires Conserves(p) && p.hand.Holding? && p.hand.next == |p.hand.d.listeners|
    ensures Conserves(Work(p))
  {
    AllVisitsGrow(p.handled, p.hand.d);
    assert p.handled + [p.hand.d] + [] + p.queue == p.handled + [p.hand.d] + p.queue;
  }

  lemma {:induction false} TakeConserves(p: Pipe)
    requires Conserves(p) && p.hand.Empty?
    ensures Conserves(Work(p))
  {
    if p.queue != [] {
      var d := p.queue[0];
      assert p.queue == [d] + p.queue[1..];
      assert p.handled + [] + p.queue == p.handled + [d] + p.queue[1..];
      assert Visits(d, 0) == [];
    }
  }

  lemma {:induction false} WorkConserves(p: Pipe)
    requires Conserves(p)
    ensures Conserves(Work(p)) && Work(p).accepted == p.accepted
  {
    if p.hand.Holding? {
      if p.hand.next < |p.hand.d.listeners| {
        VisitConserves(p);
      } else {
        PutAwayConserves(p);
      }
    } else {
      TakeConserves(p);
    }
  }

  lemma {:induction false} StepConserves(p: Pipe, a: Act)
    requires Conserves(p)
    ensures Conserves(Step(p, a))
  {
    if a.Worker? && !p.stopped {
      WorkConserves(p);
    }
  }

  /** At every step of every run: handled, in hand and queued together are the accepted deliveries in
      order, the queue is within its capacity, and each delivery's listeners are walked in order, one
      delivery after the other. */
  lemma {:induction false} NothingLostOrReordered(bufferSize: int, acts: seq<Act>)
    ensures Conserves(Run(NewPipe(bufferSize), acts))
  {
    if acts != [] {
      NothingLostOrReordered(bufferSize, acts[..|acts| - 1]);
      StepConserves(Run(NewPipe(bufferSize), acts[..|acts| - 1]), acts[|acts| - 1]);
    }
  }

  /** Once the worker has stopped, everything accepted has been handled, in order, by every listener. */
  lemma {:induction false} StoppedMeansDone(bufferSize: int, acts: seq<Act>)
    ensures var p := Run(NewPipe(bufferSize), acts);
            p.stopped ==> p.handled == p.accepted && p.visits == AllVisits(p.accepted)
  {
    NothingLostOrReordered(bufferSize, acts);
  }

  /** Accepted deliveries that the worker has neither put away nor in hand. */
  function Waiting(p: Pipe): int {
    |p.accepted| - |p.handled| - |InHand(p.hand)|
  }

  lemma {:induction false} ClosedMeansClosing(bufferSize: int, acts: seq<Act>)
    ensures var p := Run(NewPipe(bufferSize), acts);
            p.capacity == Capacity(bufferSize) && (p.closed <==> Closing in acts)
  {
    if acts != [] {
      ClosedMeansClosing(bufferSize, acts[..|acts| - 1]);
      assert acts == acts[..|acts| - 1] + [acts[|acts| - 1]];
    }
  }

  /** The reply to a delivery offered after any run: a panic exactly if the queue has been closed; otherwise
      a rejection exactly if as many deliveries wait as the buffer holds, and acceptance exactly if fewer do.
      Only acceptance changes anything, and then the delivery joins the end of the line. */
  lemma {:induction false} OfferMeaning(bufferSize: int, acts: seq<Act>, d: Delivery)
    ensures var p := Run(NewPipe(bufferSize), acts);
            var (q, reply) := Offer(p, d);
            && (reply == Panics <==> Closing in acts)
            && (reply == QueueFull <==> Closing !in acts && Waiting(p) == if bufferSize >= 1 then bufferSize else 100)
            && (reply == Accepted <==> Closing !in acts && Waiting(p) < if bufferSize >= 1 then bufferSize else 100)
            && (reply == Accepted <==> q != p)
            && (reply == Accepted ==>
                  && q == p.(queue := q.queue, accepted := p.accepted + [d])
                  && q.handled + InHand(q.hand) + q.queue == p.accepted + [d])
  {
    var p := Run(NewPipe(bufferSize), acts);
    NothingLostOrReordered(bufferSize, acts);
    ClosedMeansClosing(bufferSize, acts);
    StepConserves(p, Publish(d));
    if Offer(p, d).1 == Accepted {
      assert |Offer(p, d).0.queue| == |p.queue| + 1;
    }
  }

  /** Steps until the delivery in hand has been put away. */
  function Remaining(h: Hand): int {
    if h.Holding? then |h.d.listeners| - h.next + 1 else 0
  }

  /** On a closed queue the worker is always able to go on, until it stops. */
  lemma WorkProgresses(p: Pipe)
    requires Conserves(p) && p.closed && !p.stopped
    ensures var q := Work(p);
            && q.closed && Remaining(q.hand) >= 0
            && (|q.queue| < |p.queue| ||
                (q.queue == p.queue && (Remaining(q.hand) < Remaining(p.hand) || (q.hand == p.hand && q.stopped))))
  {
  }

  // ---------------------------------------------------------------- progress

  /** Steps to take the deliveries in turn, call their listeners and put them away. */
  function Load(ds: seq<Delivery>): nat {
    if ds == [] then 0 else |ds[0].listeners| + 2 + Load(ds[1..])
  }

  function WorkerSteps(k: nat): seq<Act> {
    if k == 0 then [] else [Worker] + WorkerSteps(k - 1)
  }

  lemma {:induction false} RunFirst(p: Pipe, a: Act, acts: seq<Act>)
    ensures Run(p, [a] + acts) == Run(Step(p, a), acts)
  {
    if acts == [] {
      assert [a] + acts == [a] && [a][..0] == [];
    } else {
      var init := acts[..|acts| - 1];
      assert ([a] + acts)[..|acts|] == [a] + init;
      RunFirst(p, a, init);
    }
  }

  function Effort(p: Pipe): int {
    Remaining(p.hand) + Load(p.queue)
  }

  lemma NothingLeft(p: Pipe)
    requires Conserves(p)
    ensures Effort(p) >= 0 && (Effort(p) == 0 <==> p.hand == Empty && p.queue == [])
  {
  }

  lemma WorkIsOneStep(p: Pipe)
    requires Conserves(p) && !p.stopped && Effort(p) > 0
    ensures var q := Work(p);
            Effort(q) == Effort(p) - 1 && !q.stopped && q.closed == p.closed && q.accepted == p.accepted
  {
  }

  lemma {:induction false} WorkerStep(p: Pipe) returns (q: Pipe)
    requires Conserves(p) && !p.stopped && Effort(p) > 0
    ensures q == Work(p) && Conserves(q) && Effort(q) == Effort(p) - 1
    ensures !q.stopped && q.closed == p.closed && q.accepted == p.accepted
  {
    WorkConserves(p);
    WorkIsOneStep(p);
    q := Work(p);
  }

  /** q has handled all that p had accepted, and nothing else has happened. */
  predicate Drained(p: Pipe, q: Pipe) {
    && q.closed == p.closed && !q.stopped
    && q.handled == q.accepted == p.accepted && q.visits == AllVisits(p.accepted)
  }

  lemma IdleIsDrained(p: Pipe)
    requires Conserves(p) && !p.stopped && p.hand == Empty && p.queue == []
    ensures Drained(p, p)
  {
  }

  /** The worker alone gets from p to r in k steps. */
  predicate Works(p: Pipe, k: nat, r: Pipe)
    decreases k
  {
    if k == 0 then r == p else !p.stopped && Works(Work(p), k - 1, r)
  }

  lemma {:induction false} WorksIsRun(p: Pipe, k: nat, r: Pipe)
    requires Works(p, k, r)
    ensures Run(p, WorkerSteps(k)) == r
    decreases k
  {
    if k > 0 {
      WorksIsRun(Work(p), k - 1, r);
      RunFirst(p, Worker, WorkerSteps(k - 1));
    }
  }

  lemma {:induction false} WorkIsEnough(p: Pipe, k: int) returns (r: Pipe)
    requires Conserves(p) && !p.stopped && k == Effort(p)
    ensures k >= 0 && Works(p, k, r) && Drained(p, r)
    decreases k
  {
    NothingLeft(p);
    if k > 0 {
      var q := WorkerStep(p);
      r := WorkIsEnough(q, k - 1);
    } else {
      r := p;
      IdleIsDrained(p);
    }
  }

  /** The worker does not wait for `Close`: left alone with what has been accepted, it handles all of it in the
      steps that takes, listener by listener, whether the queue is open or closed. */
  lemma {:induction false} WorkerDrains(p: Pipe)
    requires Conserves(p) && !p.stopped
    ensures Effort(p) >= 0 && Drained(p, Run(p, WorkerSteps(Effort(p))))
  {
    var r := WorkIsEnough(p, Effort(p));
    WorksIsRun(p, Effort(p), r);
  }

  // ---------------------------------------------------------------- the strategy object

  class OrderedAsync {
    const capacity: nat
    var queue: seq<Delivery>
    var hand: Hand
    var closed: bool
    var stopped: bool
    var visits: seq<Visit>
    ghost var accepted: seq<Delivery>
    ghost var handled: seq<Delivery>

    ghost function Value(): Pipe
      reads this
    {
      Pipe(capacity, queue, hand, closed, stopped, accepted, handled, visits)
    }

    constructor (bufferSize: int)
      ensures Value() == NewPipe(bufferSize) && Conserves(Value())
    {
      capacity := Capacity(bufferSize);
      queue, hand, closed, stopped, visits := [], Empty, false, false, [];
      accepted, handled := [], [];
    }

    /** The listeners are copied: later changes to the caller's array do not reach the queue. */
    method Deliver(event: nat, listeners: array<string>) returns (reply: Reply)
      requires Conserves(Value())
      modifies this
      ensures (Value(), reply) == Offer(old(Value()), Delivery(event, old(listeners[..])))
      ensures Conserves(Value())
    {
      var copy := listeners[..];
      if closed {
        return Panics;
      }
      if |queue| >= capacity {
        return QueueFull;
      }
      queue := queue + [Delivery(event, copy)];
      accepted := accepted + [Delivery(event, copy)];
      return Accepted;
    }

    method ProcessQueue()
      requires Conserves(Value())
      modifies this
      ensures Value() == Work(old(Value())) && Conserves(Value())
    {
      WorkConserves(Value());
      match hand
      case Holding(d, next) =>
        if next < |d.listeners| {
          hand := Holding(d, next + 1);
          visits := visits + [Visit(d.event, d.listeners[next])];
        } else {
          hand := Empty;
          handled := handled + [d];
        }
      case Empty =>
        if queue != [] {
          hand := Holding(queue[0], 0);
          queue := queue[1..];
        } else if closed {
          stopped := true;
        }
    }

    /** Closes the queue and waits; the worker drains it meanwhile. */
    method Close() returns (panics: bool)
      requires Conserves(Value())
      modifies this
      ensures panics == old(closed)
      ensures !panics ==> stopped && accepted == old(accepted) && handled == accepted && visits == AllVisits(accepted)
      ensures Conserves(Value())
    {
      if closed {
        return true;
      }
      closed := true;
      while !stopped
        invariant closed && Conserves(Value()) && accepted == old(accepted)
        decreases |queue|, Remaining(hand), !stopped
      {
        WorkProgresses(Value());
        ProcessQueue();
      }
      return false;
    }
  }
}
