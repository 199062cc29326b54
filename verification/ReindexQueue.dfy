// The reindex queue: the state under the mutex, and the object that updates it.
module ReindexQueue {

  datatype Queue = Queue(deque: seq<string>, pending: set<string>, closed: bool)

  function Elements(deque: seq<string>): set<string> {
    set p | p in deque
  }

  // `pending` mirrors a queue without repetitions.
  ghost predicate Consistent(q: Queue) {
    && q.pending == Elements(q.deque)
    && forall i, j :: 0 <= i < j < |q.deque| ==> q.deque[i] != q.deque[j]
  }

  predicate Accepts(q: Queue, path: string) {
    !q.closed && path !in q.pending
  }

  function Pushed(q: Queue, path: string): Queue {
    if Accepts(q, path) then q.(deque := q.deque + [path], pending := q.pending + {path}) else q
  }

  function Closed(q: Queue): Queue {
    q.(closed := true)
  }

  // What a receiver holding the lock does next.
  datatype Next = Take(path: string) | Finish | Wait

  function NextFor(q: Queue): Next {
    if q.deque != [] then Take(q.deque[0]) else if q.closed then Finish else Wait
  }

  function AfterTake(q: Queue): Queue
    requires q.deque != []
  {
    q.(deque := q.deque[1..], pending := q.pending - {q.deque[0]})
  }

  lemma EnqueueConsistent(q: Queue, path: string)
    requires Consistent(q)
    ensures Consistent(Pushed(q, path))
    ensures !q.closed ==> path in Pushed(q, path).deque
  {
  }

  lemma TakeConsistent(q: Queue)
    requires Consistent(q) && q.deque != []
    ensures Consistent(AfterTake(q))
  {
    var rest := q.deque[1..];
    forall p ensures p in rest <==> p in q.pending && p != q.deque[0] {
      if p in rest {
        var i :| 0 <= i < |rest| && rest[i] == p;
        assert q.deque[i + 1] == p;
      }
      if p in q.pending && p != q.deque[0] {
        var i :| 0 <= i < |q.deque| && q.deque[i] == p;
        assert rest[i - 1] == p;
      }
    }
  }

  class ChannelReindexQueue {
    var deque: seq<string>
    var pending: set<string>
    var closed: bool

    function State(): Queue
      reads this
    {
      Queue(deque, pending, closed)
    }

    ghost predicate Valid()
      reads this
    {
      Consistent(State())
    }

    constructor ()
      ensures Valid() && State() == Queue([], {}, false)
    {
      deque, pending, closed := [], {}, false;
    }

    // `notify` says whether a waiting receiver is woken.
    method Enqueue(path: string) returns (notify: bool)
      requires Valid()
      modifies this
      ensures Valid() && State() == Pushed(old(State()), path)
      ensures notify <==> Accepts(old(State()), path)
    {
      EnqueueConsistent(State(), path);
      if closed { return false; }
      if path !in pending {
        pending := pending + {path};
        deque := deque + [path];
        return true;
      }
      return false;
    }

    method Close()
      requires Valid()
      modifies this
      ensures Valid() && State() == Closed(old(State()))
    {
      closed := true;
    }

    // One pass of the receive loop under the lock.
    method Poll() returns (next: Next)
      requires Valid()
      modifies this
      ensures Valid() && next == NextFor(old(State()))
      ensures State() == if next.Take? then AfterTake(old(State())) else old(State())
    {
      if deque != [] {
        TakeConsistent(State());
        var path := deque[0];
        deque := deque[1..];
        pending := pending - {path};
        return Take(path);
      }
      return if closed then Finish else Wait;
    }

    // A worker on a closed queue: every queued path is worked on once, in order, and the
    // loop ends. `work` stands for the callback, whose errors are swallowed.
    method RunWorker() returns (worked: seq<string>)
      requires Valid() && closed
      modifies this
      ensures Valid() && closed && deque == [] && worked == old(deque)
    {
      worked := [];
      var running := true;
      while running
        invariant Valid() && closed && worked + deque == old(deque)
        invariant !running ==> deque == []
        decreases running, |deque|
      {
        var next := Poll();
        match next
        case Take(path) => worked := worked + [path];
        case Finish => running := false;
      }
    }
  }
}

// Many threads on one queue. Every lock-protected section is one step; a receiver that
// finds nothing waits on the condition variable, is notified or wakes spuriously, and
// then competes for the lock with receivers that never waited.
module ReindexProtocol {
  import opened ReindexQueue

  type Thread = nat

  // Parked on the condition variable; notified but not yet holding the lock again.
  datatype System = System(queue: Queue, waiting: set<Thread>, woken: set<Thread>)

  datatype Event =
    | Produce(path: string)
    | Shut
    | Deliver(thread: Thread, path: string)
    | Exit(thread: Thread)
    | Park(thread: Thread)
    | Wake(thread: Thread)

  const START := System(Queue([], {}, false), {}, {})

  ghost predicate Step(s: System, e: Event, t: System) {
    match e
    case Produce(path) =>
      && t.queue == Pushed(s.queue, path)
      && if Accepts(s.queue, path) && s.waiting != {} then
           exists w :: w in s.waiting && t.waiting == s.waiting - {w} && t.woken == s.woken + {w}
         else t.waiting == s.waiting && t.woken == s.woken
    case Shut =>
      t.queue == Closed(s.queue) && t.waiting == {} && t.woken == s.woken + s.waiting
    case Deliver(r, path) =>
      && r !in s.waiting && NextFor(s.queue) == Take(path)
      && t.queue == AfterTake(s.queue) && t.waiting == s.waiting && t.woken == s.woken - {r}
    case Exit(r) =>
      && r !in s.waiting && NextFor(s.queue) == Finish
      && t.queue == s.queue && t.waiting == s.waiting && t.woken == s.woken - {r}
    case Park(r) =>
      && r !in s.waiting && NextFor(s.queue) == Wait
      && t.queue == s.queue && t.waiting == s.waiting + {r} && t.woken == s.woken - {r}
    case Wake(r) =>
      r in s.waiting && t == System(s.queue, s.waiting - {r}, s.woken + {r})
  }

  // Any schedule of producers, receivers and close.
  ghost predicate IsRun(states: seq<System>, events: seq<Event>) {
    && |states| == |events| + 1 && states[0] == START
    && forall i :: 0 <= i < |events| ==> Step(states[i], events[i], states[i + 1])
  }

  // While a receiver waits, there are at least as many woken ones as queued paths: no
  // wakeup is lost. After close nobody waits.
  ghost predicate Inv(s: System) {
    && Consistent(s.queue)
    && s.waiting !! s.woken
    && (s.waiting != {} ==> |s.woken| >= |s.queue.deque|)
    && (s.queue.closed ==> s.waiting == {})
  }

  lemma StepInv(s: System, e: Event, t: System)
    requires Inv(s) && Step(s, e, t)
    ensures Inv(t) && (s.queue.closed ==> t.queue.closed)
  {
    match e
    case Produce(path) =>
      EnqueueConsistent(s.queue, path);
      if Accepts(s.queue, path) && s.waiting != {} {
        var w :| w in s.waiting && t.waiting == s.waiting - {w} && t.woken == s.woken + {w};
        assert |t.woken| == |s.woken| + 1;
      }
    case Deliver(r, path) =>
      TakeConsistent(s.queue);
      if r in s.woken { assert |t.woken| == |s.woken| - 1; } else { assert t.woken == s.woken; }
    case Wake(r) =>
      assert |t.woken| == |s.woken| + 1;
    case _ =>
  }

  lemma {:induction false} RunInv(states: seq<System>, events: seq<Event>, i: nat)
    requires IsRun(states, events) && i < |states|
    ensures Inv(states[i])
  {
    if i > 0 {
      RunInv(states, events, i - 1);
      StepInv(states[i - 1], events[i - 1], states[i - 1 + 1]);
    }
  }

  // A queued path never sits behind sleeping receivers only: either nobody waits, or
  // some receiver is awake and the next receive step is a delivery.
  lemma NoLostWakeup(states: seq<System>, events: seq<Event>, i: nat)
    requires IsRun(states, events) && i < |states|
    requires states[i].queue.deque != [] && states[i].waiting != {}
    ensures exists r, t :: r in states[i].woken && Step(states[i], Deliver(r, states[i].queue.deque[0]), t)
  {
    var s := states[i];
    RunInv(states, events, i);
    assert |s.woken| > 0;
    var r :| r in s.woken;
    var t := System(AfterTake(s.queue), s.waiting, s.woken - {r});
    assert Step(s, Deliver(r, s.queue.deque[0]), t);
  }

  lemma {:induction false} StaysClosed(states: seq<System>, events: seq<Event>, i: nat, j: nat)
    requires IsRun(states, events) && i <= j < |states| && states[i].queue.closed
    ensures states[j].queue.closed
    decreases j
  {
    if i < j {
      StaysClosed(states, events, i, j - 1);
      RunInv(states, events, j - 1);
      StepInv(states[j - 1], events[j - 1], states[j - 1 + 1]);
    }
  }

  // After close nobody is left waiting and nobody parks again.
  lemma NobodyWaitsAfterClose(states: seq<System>, events: seq<Event>, i: nat, j: nat)
    requires IsRun(states, events) && i <= j < |states| && states[i].queue.closed
    ensures states[j].waiting == {} && (j < |events| ==> !events[j].Park?)
  {
    StaysClosed(states, events, i, j);
    RunInv(states, events, j);
    if j < |events| { assert Step(states[j], events[j], states[j + 1]); }
  }

  // ---------- what comes out is what went in ----------

  function Accepted(states: seq<System>, events: seq<Event>): seq<string>
    requires |states| == |events| + 1
    decreases |events|
  {
    if events == [] then []
    else
      var n := |events| - 1;
      var before := Accepted(states[..n + 1], events[..n]);
      if events[n].Produce? && Accepts(states[n].queue, events[n].path) then before + [events[n].path] else before
  }

  function Delivered(events: seq<Event>): seq<string> {
    if events == [] then []
    else
      var n := |events| - 1;
      if events[n].Deliver? then Delivered(events[..n]) + [events[n].path] else Delivered(events[..n])
  }

  lemma RunPrefix(states: seq<System>, events: seq<Event>, n: nat)
    requires IsRun(states, events) && n <= |events|
    ensures IsRun(states[..n + 1], events[..n])
  {
  }

  // Every accepted path is delivered exactly once, in order of acceptance; the
  // difference is what is still queued.
  lemma {:induction false} FifoExactlyOnce(states: seq<System>, events: seq<Event>)
    requires IsRun(states, events)
    ensures Accepted(states, events) == Delivered(events) + states[|events|].queue.deque
    decreases |events|
  {
    if events != [] {
      var n := |events| - 1;
      RunPrefix(states, events, n);
      FifoExactlyOnce(states[..n + 1], events[..n]);
      var s, t := states[n], states[n + 1];
      assert Step(s, events[n], t);
      DeliveryStep(s, events[n], t, Delivered(events[..n]));
    }
  }

  lemma DeliveryStep(s: System, e: Event, t: System, delivered: seq<string>)
    requires Step(s, e, t)
    ensures e.Deliver? ==> (delivered + [e.path]) + t.queue.deque == delivered + s.queue.deque
    ensures !e.Deliver? ==>
              t.queue.deque == (if e.Produce? && Accepts(s.queue, e.path) then s.queue.deque + [e.path] else s.queue.deque)
    ensures e.Produce? && Accepts(s.queue, e.path) ==>
              delivered + t.queue.deque == (delivered + s.queue.deque) + [e.path]
  {
  }

  // A path stays queued until it is delivered.
  lemma {:induction false} QueuedUntilDelivered(states: seq<System>, events: seq<Event>, i: nat, j: nat, path: string)
    requires IsRun(states, events) && i <= j < |states| && path in states[i].queue.deque
    ensures path in states[j].queue.deque || exists k :: i <= k < j && events[k].Deliver? && events[k].path == path
    decreases j
  {
    if i < j {
      QueuedUntilDelivered(states, events, i, j - 1, path);
      var s, t := states[j - 1], states[j];
      assert Step(s, events[j - 1], states[j - 1 + 1]);
      if path in s.queue.deque && events[j - 1].Deliver? && events[j - 1].path != path {
        var m :| 0 <= m < |s.queue.deque| && s.queue.deque[m] == path;
        assert t.queue.deque == s.queue.deque[1..];
        assert t.queue.deque[m - 1] == path;
      }
    }
  }

  // No request is forgotten: in a run that drains the queue, every enqueue before close,
  // even one folded into an earlier pending request, is followed by a delivery.
  lemma EveryRequestServed(states: seq<System>, events: seq<Event>, i: nat, path: string)
    requires IsRun(states, events) && i < |events| && events[i] == Produce(path)
    requires !states[i].queue.closed && states[|events|].queue.deque == []
    ensures exists k :: i < k < |events| && events[k].Deliver? && events[k].path == path
  {
    RunInv(states, events, i);
    assert Step(states[i], events[i], states[i + 1]);
    EnqueueConsistent(states[i].queue, path);
    QueuedUntilDelivered(states, events, i + 1, |events|, path);
  }

  function Deliveries(events: seq<Event>): nat {
    |Delivered(events)|
  }

  // After close the queue only shrinks, by one for each delivery, so as many deliveries
  // as it held end the run of every worker.
  lemma {:induction false} DrainAfterClose(states: seq<System>, events: seq<Event>, i: nat)
    requires IsRun(states, events) && i <= |events| && states[i].queue.closed
    ensures |states[|events|].queue.deque| + Deliveries(events) == |states[i].queue.deque| + Deliveries(events[..i])
    decreases |events|
  {
    if i < |events| {
      var n := |events| - 1;
      RunPrefix(states, events, n);
      DrainAfterClose(states[..n + 1], events[..n], i);
      assert events[..n][..i] == events[..i];
      StaysClosed(states, events, i, n);
      assert Step(states[n], events[n], states[n + 1]);
    } else {
      assert events[..i] == events;
    }
  }
}
