/** The subscribers' bounded queues and the broadcast that drops the oldest message of a full one. */
module Broadcast {
  import opened Sequences

  const MAX_QUEUE: nat := 512

  /** A queue after a message was put into it. */
  function Pushed<M>(items: seq<M>, msg: M): seq<M> {
    Last(MAX_QUEUE, items + [msg])
  }

  class Queue<M> {
    var items: seq<M>

    constructor ()
      ensures items == []
    {
      items := [];
    }

    method PutNowait(msg: M) returns (ok: bool)
      modifies this
      ensures ok <==> |old(items)| < MAX_QUEUE
      ensures items == if ok then old(items) + [msg] else old(items)
    {
      ok := |items| < MAX_QUEUE;
      if ok {
        items := items + [msg];
      }
    }

    method GetNowait() returns (ok: bool, ghost taken: seq<M>)
      modifies this
      ensures ok <==> old(items) != []
      ensures old(items) == taken + items && |taken| == if ok then 1 else 0
    {
      ok, taken := items != [], [];
      if ok {
        taken := [items[0]];
        items := items[1..];
      }
    }
  }

  class EventBroadcaster<M> {
    var subscribers: set<Queue<M>>

    constructor ()
      ensures subscribers == {}
    {
      subscribers := {};
    }

    method Subscribe() returns (queue: Queue<M>)
      modifies this
      ensures fresh(queue) && queue.items == []
      ensures subscribers == old(subscribers) + {queue}
    {
      queue := new Queue<M>();
      subscribers := subscribers + {queue};
    }

    method Unsubscribe(queue: Queue<M>)
      modifies this
      ensures subscribers == old(subscribers) - {queue}
    {
      subscribers := subscribers - {queue};
    }

    method Broadcast(msg: M)
      modifies subscribers
      ensures forall q :: q in subscribers ==> q.items == Pushed(old(q.items), msg)
    {
      var left := subscribers;
      while left != {}
        invariant left <= subscribers
        invariant forall q :: q in subscribers - left ==> q.items == Pushed(old(q.items), msg)
        invariant forall q :: q in left ==> q.items == old(q.items)
        decreases left
      {
        var queue :| queue in left;
        left := left - {queue};
        Offer(queue, msg);
      }
    }

    /** The retry loop: evict the oldest message until there is room. */
    static method Offer(queue: Queue<M>, msg: M)
      modifies queue
      ensures queue.items == Pushed(old(queue.items), msg)
    {
      ghost var evicted: seq<M> := [];
      while true
        invariant old(queue.items) == evicted + queue.items
        invariant evicted == [] || |queue.items| >= MAX_QUEUE - 1
        decreases |queue.items|
      {
        var ok := queue.PutNowait(msg);
        if ok {
          break;
        }
        ghost var oldest;
        ok, oldest := queue.GetNowait();
        evicted := evicted + oldest;
        if !ok {
          break;
        }
      }
    }
  }

  // ------------------------------------------------------------- whole runs

  /** Queues by the number of their subscription. */
  datatype State<M> = State(subscribers: set<nat>, queues: seq<seq<M>>)

  datatype Event<M> = Subscribe | Unsubscribe(queue: nat) | Send(msg: M) | Take(queue: nat)

  function Step<M>(s: State<M>, e: Event<M>): State<M> {
    match e
    case Subscribe => State(s.subscribers + {|s.queues|}, s.queues + [[]])
    case Unsubscribe(q) => s.(subscribers := s.subscribers - {q})
    case Send(msg) =>
      s.(queues := seq(|s.queues|, i requires 0 <= i < |s.queues| =>
        if i in s.subscribers then Pushed(s.queues[i], msg) else s.queues[i]))
    case Take(q) =>
      if q < |s.queues| && s.queues[q] != [] then s.(queues := s.queues[q := s.queues[q][1..]]) else s
  }

  function Run<M>(events: seq<Event<M>>): State<M> {
    if events == [] then State({}, []) else Step(Run(events[..|events| - 1]), events[|events| - 1])
  }

  function QueueOf<M>(s: State<M>, q: nat): seq<M> {
    if q < |s.queues| then s.queues[q] else []
  }

  /** The messages broadcast while q was subscribed: the unbounded history. */
  function Sent<M>(events: seq<Event<M>>, q: nat): seq<M> {
    if events == [] then []
    else
      var before, e := events[..|events| - 1], events[|events| - 1];
      Sent(before, q) + if e.Send? && q in Run(before).subscribers then [e.msg] else []
  }

  /** The messages the subscriber consumed. */
  function Taken<M>(events: seq<Event<M>>, q: nat): seq<M> {
    if events == [] then []
    else
      var before, e := events[..|events| - 1], events[|events| - 1];
      Taken(before, q) + if e == Take(q) && QueueOf(Run(before), q) != [] then [QueueOf(Run(before), q)[0]] else []
  }

  /** How often a message came when the queue was full. */
  function Overflows<M>(events: seq<Event<M>>, q: nat): nat {
    if events == [] then 0
    else
      var before, e := events[..|events| - 1], events[|events| - 1];
      Overflows(before, q)
      + if e.Send? && q in Run(before).subscribers && |QueueOf(Run(before), q)| == 512 then 1 else 0
  }

  ghost predicate Suffix<M>(s: seq<M>, all: seq<M>) {
    |s| <= |all| && s == all[|all| - |s|..]
  }

  /** The positions of some elements of all, in order and before the first n. */
  ghost predicate Picks<M>(positions: seq<nat>, some: seq<M>, all: seq<M>, n: nat) {
    && |positions| == |some| && n <= |all|
    && (forall i :: 0 <= i < |positions| ==> positions[i] < n && all[positions[i]] == some[i])
    && (forall i, j :: 0 <= i < j < |positions| ==> positions[i] < positions[j])
  }

  lemma {:induction false} SubscribersExist<M(!new)>(events: seq<Event<M>>, q: nat)
    requires q in Run(events).subscribers
    ensures q < |Run(events).queues|
  {
    var before, e := events[..|events| - 1], events[|events| - 1];
    if q in Run(before).subscribers {
      SubscribersExist(before, q);
    }
  }

  /** What one event does to one queue. */
  lemma QueueStep<M(!new)>(s: State<M>, e: Event<M>, q: nat)
    requires q in s.subscribers ==> q < |s.queues|
    ensures QueueOf(Step(s, e), q)
         == if e.Send? && q in s.subscribers then Pushed(QueueOf(s, q), e.msg)
            else if e == Take(q) && QueueOf(s, q) != [] then QueueOf(s, q)[1..]
            else QueueOf(s, q)
  {
  }

  lemma SuffixGrows<M(!new)>(items: seq<M>, all: seq<M>, msg: M)
    requires Suffix(items, all) && |items| <= MAX_QUEUE
    ensures Suffix(Pushed(items, msg), all + [msg])
    ensures |Pushed(items, msg)| == if |items| == MAX_QUEUE then MAX_QUEUE else |items| + 1
  {
  }

  /** What one event does to what was sent, consumed and lost. */
  lemma HistoryStep<M(!new)>(before: seq<Event<M>>, e: Event<M>, q: nat)
    ensures var s := Run(before);
            && Run(before + [e]) == Step(s, e)
            && (q in s.subscribers ==> q < |s.queues|)
            && Sent(before + [e], q) == Sent(before, q) + (if e.Send? && q in s.subscribers then [e.msg] else [])
            && Taken(before + [e], q)
            == Taken(before, q) + (if e == Take(q) && QueueOf(s, q) != [] then [QueueOf(s, q)[0]] else [])
            && Overflows(before + [e], q)
            == Overflows(before, q)
               + (if e.Send? && q in s.subscribers && |QueueOf(s, q)| == MAX_QUEUE then 1 else 0)
  {
    assert (before + [e])[..|before|] == before;
    if q in Run(before).subscribers {
      SubscribersExist(before, q);
    }
  }

  /** At every moment a queue holds the latest of the messages sent to it, 512 at most, and each message sent was
      consumed, is queued, or was evicted by an overflow. */
  lemma {:induction false} QueueIsRecentHistory<M(!new)>(events: seq<Event<M>>, q: nat)
    ensures |QueueOf(Run(events), q)| <= 512
    ensures Suffix(QueueOf(Run(events), q), Sent(events, q))
    ensures |Sent(events, q)| == |Taken(events, q)| + |QueueOf(Run(events), q)| + Overflows(events, q)
  {
    if events != [] {
      var before, e := events[..|events| - 1], events[|events| - 1];
      assert events == before + [e];
      var s := Run(before);
      QueueIsRecentHistory(before, q);
      HistoryStep(before, e, q);
      QueueStep(s, e, q);
      if e.Send? && q in s.subscribers {
        SuffixGrows(QueueOf(s, q), Sent(before, q), e.msg);
      }
    }
  }

  lemma PicksMore<M(!new)>(positions: seq<nat>, some: seq<M>, all: seq<M>, n: nat, more: seq<M>, m: nat)
    requires Picks(positions, some, all, n) && n <= m <= |all + more|
    ensures Picks(positions, some, all + more, m)
  {
  }

  lemma PicksNext<M(!new)>(positions: seq<nat>, some: seq<M>, all: seq<M>, n: nat)
    requires Picks(positions, some, all, n) && n < |all|
    ensures Picks(positions + [n], some + [all[n]], all, n + 1)
  {
  }

  /** What was consumed came in the order it was sent, and before everything still queued. */
  lemma {:induction false} ConsumedInOrder<M(!new)>(events: seq<Event<M>>, q: nat) returns (positions: seq<nat>)
    ensures |QueueOf(Run(events), q)| <= |Sent(events, q)|
    ensures Picks(positions, Taken(events, q), Sent(events, q), |Sent(events, q)| - |QueueOf(Run(events), q)|)
  {
    QueueIsRecentHistory(events, q);
    if events == [] {
      positions := [];
    } else {
      var before, e := events[..|events| - 1], events[|events| - 1];
      assert events == before + [e];
      var s := Run(before);
      positions := ConsumedInOrder(before, q);
      QueueIsRecentHistory(before, q);
      HistoryStep(before, e, q);
      QueueStep(s, e, q);
      var sent, n := Sent(before, q), |Sent(before, q)| - |QueueOf(s, q)|;
      if e.Send? && q in s.subscribers {
        SuffixGrows(QueueOf(s, q), sent, e.msg);
        PicksMore(positions, Taken(before, q), sent, n, [e.msg], |sent| + 1 - |QueueOf(Run(events), q)|);
      } else if e == Take(q) && QueueOf(s, q) != [] {
        PicksNext(positions, Taken(before, q), sent, n);
        positions := positions + [n];
      }
    }
  }

  /** A subscriber gets everything, in order, exactly when its queue was never full as a message came. */
  lemma NothingLost<M(!new)>(events: seq<Event<M>>, q: nat)
    ensures Taken(events, q) + QueueOf(Run(events), q) == Sent(events, q) <==> Overflows(events, q) == 0
  {
    QueueIsRecentHistory(events, q);
    var positions := ConsumedInOrder(events, q);
    var n := |positions|;
    if Overflows(events, q) == 0 {
      forall i | 0 <= i < n
        ensures positions[i] == i
      {
        Dense(positions, n, i);
      }
    }
  }

  lemma {:induction false} Dense(positions: seq<nat>, n: nat, i: nat)
    requires |positions| == n && i < n
    requires forall j :: 0 <= j < n ==> positions[j] < n
    requires forall j, k :: 0 <= j < k < n ==> positions[j] < positions[k]
    ensures positions[i] == i
  {
    AtLeast(positions, i);
    AtMost(positions, i);
  }

  lemma {:induction false} AtLeast(positions: seq<nat>, i: nat)
    requires i < |positions|
    requires forall j, k :: 0 <= j < k < |positions| ==> positions[j] < positions[k]
    ensures positions[i] >= i
  {
    if i > 0 {
      AtLeast(positions, i - 1);
    }
  }

  lemma {:induction false} AtMost(positions: seq<nat>, i: nat)
    requires i < |positions|
    requires forall j :: 0 <= j < |positions| ==> positions[j] < |positions|
    requires forall j, k :: 0 <= j < k < |positions| ==> positions[j] < positions[k]
    ensures positions[i] <= i
    decreases |positions| - i
  {
    if i + 1 < |positions| {
      AtMost(positions, i + 1);
    }
  }
}
