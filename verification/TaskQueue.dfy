/**
 The git task queue: one worker, first in first out. Every stretch of code
 between two awaits is one step. The random task ids are assumed unique, so a
 task is named here by its place in the order of submission.
 */
module TaskQueue {
  import opened Options

  const HISTORY: nat := 50

  type Id = nat

  datatype Status = Queued | Running | Completed | Errored | Cancelled

  predicate Finished(s: Status) {
    s.Completed? || s.Errored? || s.Cancelled?
  }

  /** A task's work is the caller's own, or a lease's: wait until released. */
  datatype Fn = Work | Hold

  /** The fields of the queue, with the events of its leases. `order` is the creation order kept for the panel. */
  datatype State = State(
    next: Id,
    tasks: map<Id, Status>,
    fns: map<Id, Fn>,
    order: seq<Id>,
    cancelled: set<Id>,
    releases: set<Id>,
    queue: seq<Id>,
    running: Option<Id>,
    granted: set<Id>,
    released: set<Id>)

  const EMPTY: State := State(0, map[], map[], [], {}, {}, [], None, {}, {})

  // ----------------------------------------------------------- id sequences

  function Elements(ids: seq<Id>): set<Id> {
    set id | id in ids
  }

  ghost predicate Increasing(ids: seq<Id>) {
    forall i, j :: 0 <= i < j < |ids| ==> ids[i] < ids[j]
  }

  function Select(ids: seq<Id>, wanted: set<Id>): (r: seq<Id>)
    ensures forall id :: id in r <==> id in ids && id in wanted
  {
    if ids == [] then []
    else
      assert ids == ids[..|ids| - 1] + [ids[|ids| - 1]];
      Select(ids[..|ids| - 1], wanted) + if ids[|ids| - 1] in wanted then [ids[|ids| - 1]] else []
  }

  function Without(ids: seq<Id>, gone: set<Id>): (r: seq<Id>)
    ensures forall id :: id in r <==> id in ids && id !in gone
  {
    if ids == [] then []
    else
      assert ids == ids[..|ids| - 1] + [ids[|ids| - 1]];
      Without(ids[..|ids| - 1], gone) + if ids[|ids| - 1] in gone then [] else [ids[|ids| - 1]]
  }

  // ----------------------------------------------------------------- steps

  function DoneSet(s: State): set<Id> {
    set id | id in s.tasks && Finished(s.tasks[id])
  }

  /** The finished tasks, in creation order. */
  function DoneIds(s: State): seq<Id> {
    Select(s.order, DoneSet(s))
  }

  function Excess(done: seq<Id>): (n: nat)
    ensures n <= |done|
  {
    if |done| > HISTORY then |done| - HISTORY else 0
  }

  function Forget(s: State, gone: set<Id>): State {
    s.(order := Without(s.order, gone), tasks := s.tasks - gone, fns := s.fns - gone, cancelled := s.cancelled - gone)
  }

  /** Forgets all finished tasks but the last 50 created. */
  function Trim(s: State): State {
    Forget(s, Elements(DoneIds(s)[..Excess(DoneIds(s))]))
  }

  function Enlist(s: State, fn: Fn): State {
    s.(next := s.next + 1, tasks := s.tasks[s.next := Queued], fns := s.fns[s.next := fn], order := s.order + [s.next])
  }

  function AfterSubmit(s: State, fn: Fn): State {
    var t := Trim(Enlist(s, fn));
    t.(queue := t.queue + [s.next])
  }

  /** Up to its first sleep, acquire submits a lease task and registers its release event. */
  function AfterAcquire(s: State): State {
    var t := AfterSubmit(s, Hold);
    t.(releases := t.releases + {s.next})
  }

  datatype Poll = Granted | Refused | Waiting

  /** One turn of acquire's waiting loop. */
  function PollAnswer(s: State, id: Id): Poll {
    if id in s.granted then Granted
    else if id !in s.tasks || s.tasks[id].Cancelled? then Refused
    else Waiting
  }

  function AfterPoll(s: State, id: Id): State {
    if PollAnswer(s, id).Refused? then s.(releases := s.releases - {id}) else s
  }

  function AfterRelease(s: State, id: Id): State {
    if id in s.releases then s.(releases := s.releases - {id}, released := s.released + {id}) else s
  }

  /** Whether the worker starts a task it takes from the queue or passes over it. */
  predicate Starts(s: State, id: Id) {
    id in s.tasks && id in s.fns && id !in s.cancelled && !s.tasks[id].Cancelled?
  }

  /** The idle worker takes the head of the queue; a lease is granted as soon as it runs. */
  function AfterTake(s: State): State
    requires s.queue != []
  {
    var id := s.queue[0];
    var t := s.(queue := s.queue[1..], fns := s.fns - {id});
    if !Starts(s, id) then t
    else t.(tasks := t.tasks[id := Running], running := Some(id),
            granted := if s.fns[id].Hold? then t.granted + {id} else t.granted)
  }

  function AfterFinish(s: State, ok: bool): State
    requires s.running.Some?
  {
    s.(tasks := s.tasks[s.running.value := if ok then Completed else Errored], running := None)
  }

  function QueuedSet(s: State): set<Id> {
    set id | id in s.tasks && s.tasks[id].Queued?
  }

  function Clearing(s: State, some: set<Id>): State {
    s.(tasks := map id | id in s.tasks :: if id in some then Cancelled else s.tasks[id], cancelled := s.cancelled + some)
  }

  function AfterClear(s: State): State {
    Clearing(s, QueuedSet(s))
  }

  // -------------------------------------------------------- sequence lemmas

  lemma {:induction false} SelectIncreasing(ids: seq<Id>, wanted: set<Id>)
    requires Increasing(ids)
    ensures Increasing(Select(ids, wanted))
  {
    if ids != [] {
      var init, r := ids[..|ids| - 1], Select(ids[..|ids| - 1], wanted);
      SelectIncreasing(init, wanted);
      forall i | 0 <= i < |r| ensures r[i] < ids[|ids| - 1] { BelowLast(ids, r[i]); }
    }
  }

  lemma {:induction false} WithoutIncreasing(ids: seq<Id>, gone: set<Id>)
    requires Increasing(ids)
    ensures Increasing(Without(ids, gone))
  {
    if ids != [] {
      var init, r := ids[..|ids| - 1], Without(ids[..|ids| - 1], gone);
      WithoutIncreasing(init, gone);
      forall i | 0 <= i < |r| ensures r[i] < ids[|ids| - 1] { BelowLast(ids, r[i]); }
    }
  }

  lemma BelowLast(ids: seq<Id>, id: Id)
    requires Increasing(ids) && ids != [] && id in ids[..|ids| - 1]
    ensures id < ids[|ids| - 1]
  {
    var i :| 0 <= i < |ids| - 1 && ids[..|ids| - 1][i] == id;
  }

  lemma {:induction false} IncreasingSize(ids: seq<Id>)
    requires Increasing(ids)
    ensures |Elements(ids)| == |ids|
  {
    if ids != [] {
      var init, last := ids[..|ids| - 1], ids[|ids| - 1];
      IncreasingSize(init);
      assert last !in init by {
        if last in init {
          BelowLast(ids, last);
        }
      }
      assert ids == init + [last];
      assert Elements(ids) == Elements(init) + {last};
    }
  }

  lemma WithoutSnoc(ids: seq<Id>, id: Id, gone: set<Id>)
    ensures Without(ids + [id], gone) == if id in gone then Without(ids, gone) else Without(ids, gone) + [id]
  {
    assert (ids + [id])[..|ids|] == ids;
  }

  lemma {:induction false} WithoutNothing(ids: seq<Id>)
    ensures Without(ids, {}) == ids
  {
    if ids != [] {
      var init, last := ids[..|ids| - 1], ids[|ids| - 1];
      assert ids == init + [last];
      WithoutSnoc(init, last, {});
      WithoutNothing(init);
    }
  }

  lemma {:induction false} WithoutTwice(ids: seq<Id>, a: set<Id>, b: set<Id>)
    ensures Without(Without(ids, a), b) == Without(ids, a + b)
  {
    if ids != [] {
      var init, last := ids[..|ids| - 1], ids[|ids| - 1];
      assert ids == init + [last];
      WithoutSnoc(init, last, a);
      WithoutSnoc(init, last, a + b);
      WithoutSnoc(Without(init, a), last, b);
      WithoutTwice(init, a, b);
    }
  }

  /** deque.remove: takes out the first occurrence. */
  function RemoveFirst(ids: seq<Id>, id: Id): seq<Id> {
    if ids == [] then []
    else if ids[0] == id then ids[1..]
    else [ids[0]] + RemoveFirst(ids[1..], id)
  }

  lemma {:induction false} WithoutHead(ids: seq<Id>, gone: set<Id>)
    requires ids != []
    ensures Without(ids, gone) == (if ids[0] in gone then [] else [ids[0]]) + Without(ids[1..], gone)
  {
    if |ids| > 1 {
      var init, tail := ids[..|ids| - 1], ids[1..];
      WithoutHead(init, gone);
      assert init[0] == ids[0] && init[1..] == tail[..|tail| - 1] && tail[|tail| - 1] == ids[|ids| - 1];
    } else {
      assert ids[..0] == [] && ids[1..] == [];
    }
  }

  lemma {:induction false} WithoutAbsent(ids: seq<Id>, gone: set<Id>)
    requires forall id :: id in ids ==> id !in gone
    ensures Without(ids, gone) == ids
  {
    if ids != [] {
      assert ids == ids[..|ids| - 1] + [ids[|ids| - 1]];
      WithoutAbsent(ids[..|ids| - 1], gone);
    }
  }

  lemma {:induction false} RemoveFirstIsWithout(ids: seq<Id>, id: Id)
    requires Increasing(ids)
    ensures RemoveFirst(ids, id) == Without(ids, {id})
  {
    if ids != [] {
      WithoutHead(ids, {id});
      if ids[0] == id {
        WithoutAbsent(ids[1..], {id});
      } else {
        RemoveFirstIsWithout(ids[1..], id);
      }
    }
  }

  // -------------------------------------------------------------- the class

  datatype Coroutine = Worker | Other

  class Queue {
    var next: Id
    var tasks: map<Id, Status>
    var fns: map<Id, Fn>
    var order: seq<Id>
    var cancelled: set<Id>
    var releases: set<Id>
    var queue: seq<Id>
    var running: Option<Id>
    var granted: set<Id>
    var released: set<Id>
    /** The value of in_queue_task in the worker's own context. */
    var workerInTask: bool

    ghost function View(): State
      reads this
    {
      State(next, tasks, fns, order, cancelled, releases, queue, running, granted, released)
    }

    /** The worker's context is marked exactly while a task runs in it. */
    ghost predicate Marked()
      reads this
    {
      workerInTask <==> running.Some?
    }

    /** What in_queue_task.get() returns: every other coroutine has the default in its own context. */
    predicate InQueueTask(who: Coroutine)
      reads this
    {
      who.Worker? && workerInTask
    }

    constructor ()
      ensures View() == EMPTY && Marked()
    {
      workerInTask := false;
      next, tasks, fns, order, cancelled, releases := 0, map[], map[], [], {}, {};
      queue, running, granted, released := [], None, {}, {};
    }

    method Submit(fn: Fn) returns (id: Id)
      requires Increasing(order) && forall i :: i in order ==> i < next
      modifies `next, `tasks, `fns, `order, `cancelled, `queue
      ensures id == old(next) && View() == AfterSubmit(old(View()), fn)
    {
      id := next;
      next := next + 1;
      tasks := tasks[id := Queued];
      fns := fns[id := fn];
      IncreasingSnoc(order, id);
      order := order + [id];
      assert View() == Enlist(old(View()), fn);
      TrimHistory();
      queue := queue + [id];
    }

    method TrimHistory()
      requires Increasing(order)
      modifies `tasks, `fns, `order, `cancelled
      ensures View() == Trim(old(View()))
    {
      ghost var s := View();
      ForgetNone(s);
      var doneIds := CollectDone();
      ghost var gone: set<Id> := {};
      ghost var all := doneIds;
      ghost var k := 0;
      assert Elements(all[..0]) == {};
      while |doneIds| > HISTORY
        invariant k <= |all| && doneIds == all[k..] && k <= Excess(all)
        invariant gone == Elements(all[..k])
        invariant View() == Forget(s, gone)
        decreases |doneIds|
      {
        var oldest := doneIds[0];
        ForgetOne(s, gone, oldest);
        ElementsSnoc(all, k);
        ForgetId(oldest);
        doneIds := doneIds[1..];
        gone := gone + {oldest};
        k := k + 1;
      }
      assert k == Excess(all);
    }

    method CollectDone() returns (doneIds: seq<Id>)
      ensures doneIds == DoneIds(View())
    {
      doneIds := [];
      for i := 0 to |order|
        invariant doneIds == Select(order[..i], DoneSet(View()))
      {
        assert order[..i + 1][..i] == order[..i];
        if order[i] in tasks && Finished(tasks[order[i]]) {
          doneIds := doneIds + [order[i]];
        }
      }
      assert order[..|order|] == order;
    }

    method ForgetId(id: Id)
      modifies `tasks, `fns, `order, `cancelled
      ensures View() == ForgottenOne(old(View()), id)
    {
      order := RemoveFirst(order, id);
      tasks := tasks - {id};
      fns := fns - {id};
      cancelled := cancelled - {id};
    }

    /** acquire up to its first sleep. */
    method StartAcquire() returns (id: Id)
      requires Increasing(order) && forall i :: i in order ==> i < next
      modifies `next, `tasks, `fns, `order, `cancelled, `queue, `releases
      ensures id == old(next) && View() == AfterAcquire(old(View()))
    {
      id := Submit(Hold);
      releases := releases + {id};
    }

    /** One turn of the loop in acquire. */
    method PollLease(id: Id) returns (answer: Poll)
      modifies `releases
      ensures answer == PollAnswer(old(View()), id) && View() == AfterPoll(old(View()), id)
    {
      if id in granted {
        return Granted;
      }
      if id !in tasks || tasks[id] == Cancelled {
        releases := releases - {id};
        return Refused;
      }
      return Waiting;
    }

    method Release(id: Id)
      modifies `releases, `released
      ensures View() == AfterRelease(old(View()), id)
    {
      if id in releases {
        releases := releases - {id};
        released := released + {id};
      }
    }

    /** The worker from getting the head of the queue until its task first awaits. */
    method Take()
      requires queue != []
      modifies this
      ensures View() == AfterTake(old(View()))
      ensures old(Marked()) ==> Marked()
    {
      var id := queue[0];
      queue := queue[1..];
      var known := id in tasks;
      var fn := if id in fns then Some(fns[id]) else None;
      fns := fns - {id};
      if !known || fn.None? {
        return;
      }
      if id in cancelled || tasks[id] == Cancelled {
        return;
      }
      tasks := tasks[id := Running];
      running := Some(id);
      workerInTask := true;
      if fn.value.Hold? {
        granted := granted + {id};
      }
    }

    /** The worker when its task has returned or raised. */
    method Finish(ok: bool)
      requires running.Some?
      modifies this
      ensures View() == AfterFinish(old(View()), ok) && Marked()
    {
      workerInTask := false;
      tasks := tasks[running.value := if ok then Completed else Errored];
      running := None;
    }

    method CancelId(id: Id)
      requires id in tasks
      modifies `tasks, `cancelled
      ensures View() == CancelledOne(old(View()), id)
    {
      tasks := tasks[id := Cancelled];
      cancelled := cancelled + {id};
    }

    /** Cancels every task still queued and returns how many there were. */
    method Clear() returns (n: nat)
      modifies `tasks, `cancelled
      ensures View() == AfterClear(old(View())) && n == |QueuedSet(old(View()))|
    {
      n := 0;
      ghost var s := View();
      var todo := tasks.Keys;
      ghost var some: set<Id> := {};
      hide Clearing, QueuedSet;
      ClearingNone(s);
      while todo != {}
        invariant todo <= s.tasks.Keys
        invariant some == QueuedSet(s) - todo && n == |some|
        invariant View() == Clearing(s, some)
      {
        var id :| id in todo;
        ClearingAt(s, some, id);
        InQueuedSet(s, id);
        if tasks[id] == Queued {
          ClearingOne(s, some, id);
          CancelId(id);
          n := n + 1;
          some := some + {id};
        }
        todo := todo - {id};
      }
      assert some == QueuedSet(s);
    }
  }

  lemma InQueuedSet(s: State, id: Id)
    requires id in s.tasks
    ensures id in QueuedSet(s) <==> s.tasks[id].Queued?
  {
  }

  lemma IncreasingSnoc(ids: seq<Id>, id: Id)
    requires Increasing(ids) && forall i :: i in ids ==> i < id
    ensures Increasing(ids + [id])
  {
    assert forall i :: 0 <= i < |ids| ==> ids[i] in ids;
  }

  lemma ElementsSnoc(ids: seq<Id>, k: nat)
    requires k < |ids|
    ensures Elements(ids[..k + 1]) == Elements(ids[..k]) + {ids[k]}
  {
    assert ids[..k + 1] == ids[..k] + [ids[k]];
  }

  lemma ClearingAt(s: State, some: set<Id>, id: Id)
    requires id in s.tasks && id !in some
    ensures id in Clearing(s, some).tasks && Clearing(s, some).tasks[id] == s.tasks[id]
  {
  }

  lemma ClearingNone(s: State)
    ensures Clearing(s, {}) == s
  {
    assert Clearing(s, {}).tasks == s.tasks;
  }

  function CancelledOne(s: State, id: Id): State {
    s.(tasks := s.tasks[id := Cancelled], cancelled := s.cancelled + {id})
  }

  lemma ClearingOne(s: State, some: set<Id>, id: Id)
    requires id in s.tasks
    ensures CancelledOne(Clearing(s, some), id) == Clearing(s, some + {id})
  {
    assert Clearing(s, some).tasks[id := Cancelled] == Clearing(s, some + {id}).tasks;
  }

  lemma ForgetNone(s: State)
    ensures Forget(s, {}) == s
  {
    WithoutNothing(s.order);
    assert s.tasks - {} == s.tasks && s.fns - {} == s.fns;
  }

  function ForgottenOne(s: State, id: Id): State {
    s.(order := RemoveFirst(s.order, id), tasks := s.tasks - {id}, fns := s.fns - {id}, cancelled := s.cancelled - {id})
  }

  lemma {:induction false} ForgetOne(s: State, gone: set<Id>, id: Id)
    requires Increasing(s.order)
    ensures ForgottenOne(Forget(s, gone), id) == Forget(s, gone + {id})
  {
    WithoutIncreasing(s.order, gone);
    RemoveFirstIsWithout(Without(s.order, gone), id);
    WithoutTwice(s.order, gone, {id});
    assert s.tasks - gone - {id} == s.tasks - (gone + {id});
    assert s.fns - gone - {id} == s.fns - (gone + {id});
  }

  /** `async with` around git operations; a queue task already has the turn. */
  class GitLockContext {
    var taskId: Option<Id>

    constructor ()
      ensures taskId.None?
    {
      taskId := None;
    }

    /** Entering from a coroutine, up to where the lease is awaited. */
    method Enter(q: Queue, who: Coroutine)
      requires Increasing(q.order) && forall i :: i in q.order ==> i < q.next
      modifies this, q`next, q`tasks, q`fns, q`order, q`cancelled, q`queue, q`releases
      ensures if q.InQueueTask(who) then taskId == old(taskId) && q.View() == old(q.View())
              else taskId == Some(old(q.next)) && q.View() == AfterAcquire(old(q.View()))
    {
      if q.InQueueTask(who) {
        return;
      }
      var id := q.StartAcquire();
      taskId := Some(id);
    }

    method Exit(q: Queue)
      modifies this, q`releases, q`released
      ensures taskId.None?
      ensures q.View() == if old(taskId).Some? then AfterRelease(old(q.View()), old(taskId).value) else old(q.View())
    {
      if taskId.Some? {
        q.Release(taskId.value);
        taskId := None;
      }
    }
  }

  /** While a task runs, the lock context taken from inside it takes no turn and releases none. */
  method NestedContext(q: Queue)
    requires Increasing(q.order) && forall i :: i in q.order ==> i < q.next
    requires q.Marked() && q.running.Some?
    modifies q
    ensures q.View() == old(q.View()) && q.Marked()
  {
    var context := new GitLockContext();
    context.Enter(q, Worker);
    context.Exit(q);
  }
}
