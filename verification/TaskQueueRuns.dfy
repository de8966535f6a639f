/** What holds of the task queue in every run. */
module TaskQueueRuns {
  import opened Sequences
  import opened Options
  import opened TaskQueue

  /**
   The queue with what has happened so far: the tasks started, in order; those
   cancelled by an admin; all that ever finished; the acquirers still polling
   and those holding a lease, that is between acquire returning and release.
   */
  datatype Run = Run(
    s: State,
    started: seq<Id>,
    cleared: set<Id>,
    finished: set<Id>,
    polling: set<Id>,
    holders: set<Id>)

  const START: Run := Run(EMPTY, [], {}, {}, {}, {})

  datatype Event =
    | Submits
    | Acquires
    | Polls(id: Id)
    | Releases(id: Id)
    | Takes
    | Ends(ok: bool)
    | Clears

  /**
   Callers poll only for a lease they asked for and release only a lease they
   hold. A lease's task ends, normally, once it is released.
   */
  ghost predicate Enabled(r: Run, e: Event) {
    match e
    case Submits => true
    case Acquires => true
    case Polls(id) => id in r.polling
    case Releases(id) => id in r.holders
    case Takes => r.s.running.None? && r.s.queue != []
    case Ends(ok) => r.s.running.Some? && (r.s.running.value in r.s.granted ==> r.s.running.value in r.s.released && ok)
    case Clears => true
  }

  ghost function Next(r: Run, e: Event): Run
    requires Enabled(r, e)
  {
    match e
    case Submits => r.(s := AfterSubmit(r.s, Work))
    case Acquires => r.(s := AfterAcquire(r.s), polling := r.polling + {r.s.next})
    case Polls(id) =>
      (match PollAnswer(r.s, id)
       case Granted => r.(polling := r.polling - {id}, holders := r.holders + {id})
       case Refused => r.(s := AfterPoll(r.s, id), polling := r.polling - {id})
       case Waiting => r)
    case Releases(id) => r.(s := AfterRelease(r.s, id), holders := r.holders - {id})
    case Takes =>
      r.(s := AfterTake(r.s), started := if Starts(r.s, r.s.queue[0]) then r.started + [r.s.queue[0]] else r.started)
    case Ends(ok) => r.(s := AfterFinish(r.s, ok), finished := r.finished + {r.s.running.value})
    case Clears =>
      r.(s := AfterClear(r.s), cleared := r.cleared + QueuedSet(r.s), finished := r.finished + QueuedSet(r.s))
  }

  ghost predicate Reaches(r: Run, es: seq<Event>, r': Run)
    decreases |es|
  {
    if es == [] then r == r' else Enabled(r, es[0]) && Reaches(Next(r, es[0]), es[1..], r')
  }

  // ------------------------------------------------------------- invariant

  /** Queue, creation order and tasks agree. */
  ghost predicate Shape(s: State) {
    && Increasing(s.order) && Increasing(s.queue)
    && s.tasks.Keys == Elements(s.order)
    && (forall id :: id in s.order ==> id < s.next)
    && (forall id :: id in s.queue ==> id < s.next)
    && (forall id :: id in s.cancelled ==> id < s.next)
    && (forall id :: id in s.tasks && s.tasks[id].Queued? ==> id in s.queue && id in s.fns && id !in s.cancelled)
    && (forall id :: id in s.queue && id in s.tasks ==> s.tasks[id].Queued? || s.tasks[id].Cancelled?)
  }

  /** At most one task runs and it is the one the queue says. */
  ghost predicate OneRunning(s: State) {
    forall id :: (id in s.tasks && s.tasks[id].Running?) <==> s.running == Some(id)
  }

  /** Everything started precedes everything still queued. */
  ghost predicate InOrder(r: Run) {
    && Increasing(r.started)
    && (forall id :: id in r.started ==> id < r.s.next)
    && (forall a, b :: a in r.started && b in r.s.queue ==> a < b)
    && (r.s.running.Some? ==> r.s.running.value in r.started)
  }

  /** A granted lease that is not released is the running task; holders are such leases. */
  ghost predicate LeasesRun(r: Run) {
    && (forall id :: id in r.s.granted ==> id in r.started)
    && (forall id :: id in r.s.granted && id !in r.s.released ==> r.s.running == Some(id))
    && (forall id :: id in r.holders ==> id in r.s.granted && id !in r.s.released)
    && (forall id :: id in r.holders + r.polling ==> id in r.s.releases && id < r.s.next)
    && (forall id :: id in r.polling ==> id !in r.s.released && id !in r.holders)
    && (forall id :: id in r.s.released ==> id < r.s.next)
  }

  /** Cleared tasks never started, and are marked as long as they are remembered. */
  ghost predicate ClearedStay(r: Run) {
    forall id :: id in r.cleared ==>
      id < r.s.next && id !in r.started && (id in r.s.tasks ==> r.s.tasks[id].Cancelled?)
  }

  function LaterThan(ids: set<Id>, id: Id): set<Id> {
    set d | d in ids && d > id
  }

  /** A task is forgotten only when it finished and 50 tasks created after it finished too. */
  ghost predicate ForgottenOld(r: Run) {
    && (forall id :: id in r.finished ==> id < r.s.next)
    && (forall id :: id in r.s.tasks ==> (id in r.finished <==> Finished(r.s.tasks[id])))
    && (forall id :: 0 <= id < r.s.next && id !in r.s.tasks ==>
          id in r.finished && |LaterThan(r.finished, id)| >= HISTORY)
  }

  ghost predicate Inv(r: Run) {
    && Shape(r.s) && OneRunning(r.s) && InOrder(r) && LeasesRun(r) && ClearedStay(r) && ForgottenOld(r)
  }

  // ------------------------------------------------------------- trimming

  lemma {:induction false} DroppedHave50(s: State, id: Id)
    requires Increasing(s.order) && id in DoneIds(s)[..Excess(DoneIds(s))]
    ensures |LaterThan(DoneSet(s), id)| >= HISTORY && id in DoneSet(s)
  {
    var done := DoneIds(s);
    SelectIncreasing(s.order, DoneSet(s));
    var kept := done[Excess(done)..];
    IncreasingSize(kept);
    var i :| 0 <= i < Excess(done) && done[i] == id;
    assert Elements(kept) <= LaterThan(DoneSet(s), id) by {
      forall d | d in kept ensures d in DoneSet(s) && d > id {
        var j :| 0 <= j < |kept| && kept[j] == d;
        assert done[Excess(done) + j] == d;
      }
    }
    SubsetSize(Elements(kept), LaterThan(DoneSet(s), id));
  }

  /** What trimming leaves alone and what it may drop. */
  ghost predicate TrimmedFrom(s: State, t: State) {
    && t.next == s.next && t.queue == s.queue
    && t.running == s.running && t.releases == s.releases && t.granted == s.granted && t.released == s.released
    && Increasing(t.order) && t.tasks.Keys == Elements(t.order) && t.cancelled <= s.cancelled
    && (forall id :: id in t.tasks ==> id in s.tasks && t.tasks[id] == s.tasks[id])
    && (forall id :: id in s.tasks && !Finished(s.tasks[id]) ==>
          id in t.tasks && (id in s.fns ==> id in t.fns && t.fns[id] == s.fns[id]))
    && (forall id :: id in s.tasks && id !in t.tasks ==>
          Finished(s.tasks[id]) && |LaterThan(DoneSet(s), id)| >= HISTORY)
  }

  lemma {:induction false} TrimKeepsShape(s: State)
    requires Increasing(s.order) && s.tasks.Keys == Elements(s.order)
    ensures TrimmedFrom(s, Trim(s))
  {
    var gone := Elements(DoneIds(s)[..Excess(DoneIds(s))]);
    WithoutIncreasing(s.order, gone);
    forall id | id in gone ensures id in DoneSet(s) && |LaterThan(DoneSet(s), id)| >= HISTORY { DroppedHave50(s, id); }
  }

  lemma {:induction false} EnlistShape(s: State, fn: Fn)
    requires Shape(s)
    ensures var u := Enlist(s, fn); Increasing(u.order) && u.tasks.Keys == Elements(u.order) && DoneSet(u) == DoneSet(s)
  {
    var u := Enlist(s, fn);
    IncreasingSnoc(s.order, s.next);
    assert Elements(u.order) == Elements(s.order) + {s.next};
    assert s.next !in s.tasks by { assert s.next !in s.order; }
  }

  /** What submitting changes: one task joins at the end, and only old finished ones may go. */
  ghost predicate Submitted(s: State, fn: Fn, t: State) {
    && t.next == s.next + 1 && t.queue == s.queue + [s.next]
    && t.running == s.running && t.releases == s.releases && t.granted == s.granted && t.released == s.released
    && Increasing(t.order) && t.tasks.Keys == Elements(t.order)
    && s.next !in s.tasks && s.next in t.tasks && t.tasks[s.next].Queued?
    && s.next in t.fns && t.fns[s.next] == fn && s.next !in t.cancelled && t.cancelled <= s.cancelled
    && (forall id :: id in t.tasks && id != s.next ==> id in s.tasks && t.tasks[id] == s.tasks[id])
    && (forall id :: id in s.tasks && !Finished(s.tasks[id]) ==>
          id in t.tasks && (id in s.fns ==> id in t.fns && t.fns[id] == s.fns[id]))
    && (forall id :: id in s.tasks && id !in t.tasks ==>
          Finished(s.tasks[id]) && |LaterThan(DoneSet(s), id)| >= HISTORY)
  }

  lemma {:induction false} SubmitFacts(s: State, fn: Fn)
    requires Shape(s)
    ensures Submitted(s, fn, AfterSubmit(s, fn))
  {
    EnlistShape(s, fn);
    var u := Enlist(s, fn);
    assert s.next !in s.tasks by { assert s.next !in s.order; }
    TrimKeepsShape(u);
    SubmitFrom(s, fn, u, Trim(u));
  }

  lemma {:induction false} SubmitFrom(s: State, fn: Fn, u: State, w: State)
    requires u == Enlist(s, fn) && TrimmedFrom(u, w) && DoneSet(u) == DoneSet(s) && s.next !in s.tasks
    requires forall id :: id in s.cancelled ==> id < s.next
    ensures Submitted(s, fn, w.(queue := w.queue + [s.next]))
  {
    assert s.next in u.tasks && u.tasks[s.next].Queued? && s.next in u.fns;
  }

  lemma {:induction false} SubmitKeepsShape(s: State, fn: Fn, t: State)
    requires Shape(s) && OneRunning(s) && Submitted(s, fn, t)
    ensures Shape(t) && OneRunning(t)
  {
    IncreasingSnoc(s.queue, s.next);
    assert forall id :: id in t.order ==> id in t.tasks;
    assert forall id :: id in s.tasks ==> id in s.order;
  }

  lemma {:induction false} SubmitKeepsForgotten(r: Run, fn: Fn, t: State)
    requires Shape(r.s) && ForgottenOld(r) && Submitted(r.s, fn, t)
    ensures ForgottenOld(r.(s := t))
  {
    forall id | 0 <= id < t.next && id !in t.tasks
      ensures id in r.finished && |LaterThan(r.finished, id)| >= HISTORY
    {
      if id in r.s.tasks {
        assert LaterThan(DoneSet(r.s), id) <= LaterThan(r.finished, id);
        SubsetSize(LaterThan(DoneSet(r.s), id), LaterThan(r.finished, id));
      }
    }
  }

  lemma {:induction false} SubmitKeepsInv(r: Run, fn: Fn)
    requires Inv(r)
    ensures Inv(r.(s := AfterSubmit(r.s, fn)))
  {
    SubmitFacts(r.s, fn);
    SubmitKeepsShape(r.s, fn, AfterSubmit(r.s, fn));
    SubmitKeepsForgotten(r, fn, AfterSubmit(r.s, fn));
  }

  lemma {:induction false} AcquireKeepsInv(r: Run)
    requires Inv(r)
    ensures Inv(Next(r, Acquires))
  {
    SubmitKeepsInv(r, Hold);
    StartsPolling(r.(s := AfterSubmit(r.s, Hold)), r.s.next);
  }

  lemma {:induction false} StartsPolling(r: Run, id: Id)
    requires Inv(r) && id + 1 == r.s.next && id !in r.s.released && id !in r.holders
    ensures Inv(r.(s := r.s.(releases := r.s.releases + {id}), polling := r.polling + {id}))
  {
  }

  // ---------------------------------------------------------- other steps

  lemma {:induction false} PollKeepsInv(r: Run, id: Id)
    requires Inv(r) && id in r.polling
    ensures Inv(Next(r, Polls(id)))
  {
    hide Increasing, Elements, LaterThan, Finished;
    var v := Next(r, Polls(id));
    assert v.s == r.s || v.s == r.s.(releases := r.s.releases - {id});
    assert Shape(v.s) && OneRunning(v.s) && InOrder(v) && ClearedStay(v) && ForgottenOld(v);
    PollKeepsLeases(r, id);
  }

  lemma {:induction false} PollKeepsLeases(r: Run, id: Id)
    requires InOrder(r) && LeasesRun(r) && id in r.polling
    ensures LeasesRun(Next(r, Polls(id)))
  {
    hide Increasing;
  }

  lemma {:induction false} ReleaseKeepsInv(r: Run, id: Id)
    requires Inv(r) && id in r.holders
    ensures Inv(Next(r, Releases(id)))
  {
    var v := Next(r, Releases(id));
    assert v.s == r.s.(releases := r.s.releases - {id}, released := r.s.released + {id});
    assert Shape(v.s) && OneRunning(v.s) && InOrder(v) && ClearedStay(v) && ForgottenOld(v);
    assert LeasesRun(v);
  }

  lemma {:induction false} TailQueue(q: seq<Id>)
    requires Increasing(q) && q != []
    ensures Increasing(q[1..])
    ensures forall id :: id in q[1..] <==> id in q && id != q[0]
    ensures forall id :: id in q[1..] ==> q[0] < id
  {
    assert q == [q[0]] + q[1..];
    forall id | id in q[1..] ensures q[0] < id {
      var i :| 0 <= i < |q[1..]| && q[1..][i] == id;
      assert q[i + 1] == id;
    }
  }

  lemma {:induction false} StartKeepsShape(s: State)
    requires Shape(s) && OneRunning(s) && s.running.None? && s.queue != [] && Starts(s, s.queue[0])
    ensures Shape(AfterTake(s)) && OneRunning(AfterTake(s))
  {
    var id, t := s.queue[0], AfterTake(s);
    TailQueue(s.queue);
    assert id in s.queue;
    assert t.tasks.Keys == s.tasks.Keys + {id} == s.tasks.Keys;
  }

  lemma {:induction false} SkipKeepsShape(s: State)
    requires Shape(s) && OneRunning(s) && s.queue != [] && !Starts(s, s.queue[0])
    ensures Shape(AfterTake(s)) && OneRunning(AfterTake(s))
  {
    TailQueue(s.queue);
    assert s.queue[0] in s.queue;
  }

  lemma {:induction false} TakeKeepsInv(r: Run)
    requires Inv(r) && Enabled(r, Takes)
    ensures Inv(Next(r, Takes))
  {
    var s, id := r.s, r.s.queue[0];
    assert id in s.queue;
    TailQueue(s.queue);
    if Starts(s, id) {
      StartKeepsShape(s);
      StartKeepsRest(r);
    } else {
      SkipKeepsShape(s);
      var v := Next(r, Takes);
      assert InOrder(v) && ClearedStay(v) && ForgottenOld(v) && LeasesRun(v);
    }
  }

  lemma {:induction false} StartKeepsRest(r: Run)
    requires Inv(r) && Enabled(r, Takes) && Starts(r.s, r.s.queue[0])
    ensures var v := Next(r, Takes); InOrder(v) && LeasesRun(v) && ClearedStay(v) && ForgottenOld(v)
  {
    hide LaterThan, Elements;
    var s, id := r.s, r.s.queue[0];
    var v := Next(r, Takes);
    assert id in s.queue;
    TailQueue(s.queue);
    IncreasingSnoc(r.started, id);
    assert v.s.tasks == s.tasks[id := Running];
    assert s.tasks[id].Queued?;
    assert InOrder(v);
    assert LeasesRun(v);
    assert ClearedStay(v);
    assert ForgottenOld(v);
  }

  lemma {:induction false} EndKeepsInv(r: Run, ok: bool)
    requires Inv(r) && Enabled(r, Ends(ok))
    ensures Inv(Next(r, Ends(ok)))
  {
    hide Increasing, Elements, LaterThan;
    var s, id := r.s, r.s.running.value;
    var v := Next(r, Ends(ok));
    assert id in s.tasks && s.tasks[id].Running?;
    assert v.s.tasks.Keys == s.tasks.Keys;
    assert Shape(v.s) && OneRunning(v.s) && InOrder(v) && ClearedStay(v) && LeasesRun(v);
    FinishKeepsForgotten(r, {id}, v);
  }

  lemma {:induction false} FinishKeepsForgotten(r: Run, done: set<Id>, v: Run)
    requires ForgottenOld(r) && v.finished == r.finished + done
    requires v.s.next == r.s.next && v.s.tasks.Keys == r.s.tasks.Keys
    requires forall id :: id in done ==> id in r.s.tasks && Finished(v.s.tasks[id]) && id < r.s.next
    requires forall id :: id in r.s.tasks && id !in done ==> v.s.tasks[id] == r.s.tasks[id]
    ensures ForgottenOld(v)
  {
    forall id | 0 <= id < v.s.next && id !in v.s.tasks
      ensures id in v.finished && |LaterThan(v.finished, id)| >= HISTORY
    {
      assert LaterThan(r.finished, id) <= LaterThan(v.finished, id);
      SubsetSize(LaterThan(r.finished, id), LaterThan(v.finished, id));
    }
  }

  lemma {:induction false} ClearKeepsInv(r: Run)
    requires Inv(r)
    ensures Inv(Next(r, Clears))
  {
    hide Increasing, LaterThan;
    var s, some := r.s, QueuedSet(r.s);
    var v := Next(r, Clears);
    assert v.s.tasks.Keys == s.tasks.Keys;
    assert forall id :: id in some ==> id in s.order && id in s.queue;
    assert Shape(v.s) && OneRunning(v.s);
    assert InOrder(v) && LeasesRun(v);
    assert ClearedStay(v);
    FinishKeepsForgotten(r, some, v);
  }

  lemma {:induction false} StepKeepsInv(r: Run, e: Event)
    requires Inv(r) && Enabled(r, e)
    ensures Inv(Next(r, e))
  {
    match e {
      case Submits => SubmitKeepsInv(r, Work);
      case Acquires => AcquireKeepsInv(r);
      case Polls(id) => PollKeepsInv(r, id);
      case Releases(id) => ReleaseKeepsInv(r, id);
      case Takes => TakeKeepsInv(r);
      case Ends(ok) => EndKeepsInv(r, ok);
      case Clears => ClearKeepsInv(r);
    }
  }

  lemma {:induction false} RunKeepsInv(r: Run, es: seq<Event>, r': Run)
    requires Inv(r) && Reaches(r, es, r')
    ensures Inv(r')
    decreases |es|
  {
    if es != [] {
      StepKeepsInv(r, es[0]);
      RunKeepsInv(Next(r, es[0]), es[1..], r');
    }
  }

  lemma StartInv()
    ensures Inv(START)
  {
  }

  // ---------------------------------------------------------- main results

  /** Tasks start in submission order, each at most once, and at most one runs: the one the queue names. */
  lemma FirstInFirstOut(es: seq<Event>, r: Run)
    requires Reaches(START, es, r)
    ensures forall i, j :: 0 <= i < j < |r.started| ==> r.started[i] < r.started[j]
    ensures forall id :: id in r.s.tasks && r.s.tasks[id].Running? <==> r.s.running == Some(id)
    ensures forall a, b :: a in r.started && b in r.s.queue ==> a < b
  {
    StartInv();
    RunKeepsInv(START, es, r);
  }

  /** While a lease is held no other lease is, and no submitted task executes. */
  lemma LeaseIsExclusive(es: seq<Event>, r: Run, id: Id)
    requires Reaches(START, es, r) && id in r.holders
    ensures r.holders == {id} && r.s.running == Some(id) && id in r.s.granted
    ensures forall other :: other in r.s.tasks && r.s.tasks[other].Running? ==> other == id
  {
    StartInv();
    RunKeepsInv(START, es, r);
  }

  /** A cleared task has not started, and one whose acquire was cleared holds no lease, even once trimming has
      forgotten it. */
  lemma ClearedNeverRuns(es: seq<Event>, r: Run, id: Id)
    requires Reaches(START, es, r) && id in r.cleared
    ensures id !in r.started && id !in r.holders && !Starts(r.s, id)
    ensures id in r.polling ==> PollAnswer(r.s, id) == Refused
  {
    StartInv();
    RunKeepsInv(START, es, r);
  }

  lemma {:induction false} ReachesOn(r: Run, es: seq<Event>, m: Run, fs: seq<Event>, r': Run)
    requires Reaches(r, es, m) && Reaches(m, fs, r')
    ensures Reaches(r, es + fs, r')
    decreases |es|
  {
    hide Next, Enabled;
    if es == [] {
      assert es + fs == fs;
    } else {
      assert (es + fs)[1..] == es[1..] + fs;
      ReachesOn(Next(r, es[0]), es[1..], m, fs, r');
    }
  }

  lemma {:induction false} ClearedGrows(r: Run, es: seq<Event>, r': Run)
    requires Reaches(r, es, r')
    ensures r.cleared <= r'.cleared
    decreases |es|
  {
    if es != [] {
      ClearedGrows(Next(r, es[0]), es[1..], r');
    }
  }

  /** Once cleared always cleared: no later events start the task or grant its lease. */
  lemma ClearedForever(es: seq<Event>, r: Run, fs: seq<Event>, r': Run, id: Id)
    requires Reaches(START, es, r) && Reaches(r, fs, r') && id in r.cleared
    ensures id !in r'.started && id !in r'.holders && !Starts(r'.s, id)
    ensures id in r'.polling ==> PollAnswer(r'.s, id) == Refused
  {
    hide Reaches, Starts, PollAnswer;
    ReachesOn(START, es, r, fs, r');
    ClearedGrows(r, fs, r');
    ClearedNeverRuns(es + fs, r', id);
  }

  // ------------------------------------------------- what trimming leaves

  lemma {:induction false} MaxOf(ids: set<Id>) returns (m: Id)
    requires ids != {}
    ensures m in ids && forall id :: id in ids ==> id <= m
    decreases |ids|
  {
    m :| m in ids;
    if ids != {m} {
      var rest := ids - {m};
      assert rest != {} by { assert ids == rest + {m}; }
      var k := MaxOf(rest);
      m := if k > m then k else m;
    }
  }

  lemma {:induction false} AtMost50(s: State)
    requires Increasing(s.order) && s.tasks.Keys == Elements(s.order)
    ensures |DoneSet(Trim(s))| <= HISTORY
  {
    var done := DoneIds(s);
    var n := Excess(done);
    SelectIncreasing(s.order, DoneSet(s));
    IncreasingSize(done[n..]);
    assert done == done[..n] + done[n..];
    assert DoneSet(Trim(s)) <= Elements(done[n..]);
    SubsetSize(DoneSet(Trim(s)), Elements(done[n..]));
  }

  /** With at most 50 finished tasks kept, none of them has 50 finished after it. */
  lemma {:induction false} KeptAreRecent(finished: set<Id>, kept: set<Id>, id: Id)
    requires kept <= finished && |kept| <= HISTORY && id in kept
    requires forall f :: f in finished - kept ==> |LaterThan(finished, f)| >= HISTORY
    ensures |LaterThan(finished, id)| < HISTORY
  {
    var lost := LaterThan(finished - kept, id);
    var from := id;
    if lost != {} {
      from := MaxOf(lost);
    }
    forall d | d in LaterThan(finished, from) ensures d in kept - {id} {
      assert d !in kept ==> d in lost;
    }
    SubsetSize(LaterThan(finished, from), kept - {id});
  }

  lemma {:induction false} KeptCount(finished: set<Id>, kept: set<Id>)
    requires kept <= finished && |kept| <= HISTORY
    requires forall f :: f in finished - kept ==> |LaterThan(finished, f)| >= HISTORY
    ensures |kept| == if |finished| < HISTORY then |finished| else HISTORY
  {
    SubsetSize(kept, finished);
    if finished - kept == {} {
      forall d | d in finished ensures d in kept { assert d !in kept ==> d in finished - kept; }
      assert kept == finished;
    } else {
      var f := MaxOf(finished - kept);
      forall d | d in LaterThan(finished, f) ensures d in kept { assert d !in kept ==> d in finished - kept; }
      SubsetSize(LaterThan(finished, f), kept);
    }
  }

  /** Right after a submission the panel has every task not finished and exactly the 50 finished ones created last. */
  lemma {:induction false} RecentKept(es: seq<Event>, r: Run, fn: Fn)
    requires Reaches(START, es, r)
    ensures var t := AfterSubmit(r.s, fn);
            && (forall id :: id in r.finished ==> (id in t.tasks <==> |LaterThan(r.finished, id)| < 50))
            && |t.tasks.Keys * r.finished| == (if |r.finished| < 50 then |r.finished| else 50)
            && (forall id :: 0 <= id <= r.s.next && id !in r.finished ==> id in t.tasks)
  {
    StartInv();
    RunKeepsInv(START, es, r);
    SubmitKeepsInv(r, fn);
    var t := AfterSubmit(r.s, fn);
    EnlistShape(r.s, fn);
    AtMost50(Enlist(r.s, fn));
    var kept := t.tasks.Keys * r.finished;
    assert kept == DoneSet(t) == DoneSet(Trim(Enlist(r.s, fn)));
    KeptCount(r.finished, kept);
    forall id | id in kept ensures |LaterThan(r.finished, id)| < HISTORY { KeptAreRecent(r.finished, kept, id); }
  }

  // -------------------------------------------------- the order of execution

  /** What has started and what is going to start, in order. */
  function Plan(r: Run): seq<Id> {
    r.started + Select(r.s.queue, QueuedSet(r.s))
  }

  lemma {:induction false} SelectHead(ids: seq<Id>, wanted: set<Id>)
    requires ids != []
    ensures Select(ids, wanted) == (if ids[0] in wanted then [ids[0]] else []) + Select(ids[1..], wanted)
  {
    if |ids| > 1 {
      SelectHead(ids[..|ids| - 1], wanted);
      assert ids[..|ids| - 1][1..] == ids[1..][..|ids[1..]| - 1];
    } else {
      assert ids[..0] == [] && ids[1..] == [];
    }
  }

  lemma {:induction false} SelectNothing(ids: seq<Id>)
    ensures Select(ids, {}) == []
  {
    if ids != [] {
      SelectNothing(ids[..|ids| - 1]);
    }
  }

  lemma {:induction false} SelectSame(ids: seq<Id>, a: set<Id>, b: set<Id>)
    requires forall id :: id in ids ==> (id in a <==> id in b)
    ensures Select(ids, a) == Select(ids, b)
  {
    if ids != [] {
      assert ids == ids[..|ids| - 1] + [ids[|ids| - 1]];
      SelectSame(ids[..|ids| - 1], a, b);
    }
  }

  lemma {:induction false} StartsIfQueued(s: State, id: Id)
    requires Shape(s) && id in s.queue
    ensures Starts(s, id) <==> id in QueuedSet(s)
  {
  }

  lemma {:induction false} SubmitExtendsPlan(r: Run, fn: Fn)
    requires Inv(r)
    ensures Plan(r.(s := AfterSubmit(r.s, fn))) == Plan(r) + [r.s.next]
  {
    hide AfterSubmit;
    var s, t := r.s, AfterSubmit(r.s, fn);
    SubmitFacts(s, fn);
    assert s.next !in s.queue;
    SelectSame(s.queue, QueuedSet(s), QueuedSet(t));
    assert t.queue[..|s.queue|] == s.queue;
  }

  lemma {:induction false} TakeKeepsPlan(r: Run)
    requires Inv(r) && Enabled(r, Takes)
    ensures Plan(Next(r, Takes)) == Plan(r)
  {
    hide Select, Increasing, Elements, LaterThan;
    var s, id, tail := r.s, r.s.queue[0], r.s.queue[1..];
    var v := Next(r, Takes);
    assert id in s.queue;
    TailQueue(s.queue);
    StartsIfQueued(s, id);
    TakeQueued(s);
    SelectHead(s.queue, QueuedSet(s));
    SelectSame(tail, QueuedSet(s), QueuedSet(v.s));
    Joined(r.started, id, Select(tail, QueuedSet(s)));
  }

  lemma Joined(a: seq<Id>, id: Id, b: seq<Id>)
    ensures a + ([id] + b) == (a + [id]) + b && a + ([] + b) == a + b
  {
  }

  lemma {:induction false} TakeQueued(s: State)
    requires Shape(s) && s.queue != []
    ensures QueuedSet(AfterTake(s)) == QueuedSet(s) - {s.queue[0]}
  {
    assert s.queue[0] in s.queue;
    StartsIfQueued(s, s.queue[0]);
  }

  /** Only submitting adds to the order of execution, at its end, and only clearing takes from it, all that has not
      started. */
  lemma {:induction false} PlanIsKept(r: Run, e: Event)
    requires Inv(r) && Enabled(r, e)
    ensures Plan(Next(r, e)) ==
              if e.Submits? || e.Acquires? then Plan(r) + [r.s.next]
              else if e.Clears? then r.started
              else Plan(r)
  {
    match e {
      case Submits => SubmitExtendsPlan(r, Work);
      case Acquires =>
        SubmitExtendsPlan(r, Hold);
        assert QueuedSet(AfterAcquire(r.s)) == QueuedSet(AfterSubmit(r.s, Hold));
      case Polls(id) => assert QueuedSet(Next(r, e).s) == QueuedSet(r.s);
      case Releases(id) => assert QueuedSet(Next(r, e).s) == QueuedSet(r.s);
      case Takes => TakeKeepsPlan(r);
      case Ends(ok) =>
        assert OneRunning(r.s);
        assert QueuedSet(Next(r, e).s) == QueuedSet(r.s);
      case Clears =>
        assert QueuedSet(AfterClear(r.s)) == {};
        SelectNothing(r.s.queue);
    }
  }

  // ------------------------------------------------------ the queue drains

  /** Every lease still queued has an acquirer waiting for it, and every lease granted and not released has one that
      polls or holds it. */
  ghost predicate Awaited(r: Run) {
    && (forall id :: id in r.s.queue && Starts(r.s, id) && r.s.fns[id].Hold? ==> id in r.polling)
    && (forall id :: id in r.s.granted && id !in r.s.released ==> id in r.polling || id in r.holders)
  }

  lemma {:induction false} SubmitKeepsAwaited(r: Run, fn: Fn, polling: set<Id>)
    requires Inv(r) && Awaited(r) && r.polling <= polling && (fn.Hold? ==> r.s.next in polling)
    ensures Awaited(r.(s := AfterSubmit(r.s, fn), polling := polling))
  {
    hide AfterSubmit, Increasing, Elements, LaterThan;
    SubmitFacts(r.s, fn);
    var t := AfterSubmit(r.s, fn);
    forall id | id in t.queue && Starts(t, id) && t.fns[id].Hold?
      ensures id in polling
    {
      if id != r.s.next {
        SubmittedStarts(r.s, fn, t, id);
      }
    }
  }

  lemma {:induction false} SubmittedStarts(s: State, fn: Fn, t: State, id: Id)
    requires Shape(s) && Submitted(s, fn, t) && id in s.queue && Starts(t, id) && id != s.next
    ensures Starts(s, id) && s.fns[id] == t.fns[id]
  {
    assert id in s.tasks && t.tasks[id] == s.tasks[id];
    assert s.tasks[id].Queued?;
  }

  lemma {:induction false} TakeKeepsAwaited(r: Run)
    requires Inv(r) && Awaited(r) && Enabled(r, Takes)
    ensures Awaited(Next(r, Takes))
  {
    hide Increasing, Elements, LaterThan;
    var id, v := r.s.queue[0], Next(r, Takes);
    TailQueue(r.s.queue);
    assert id in r.s.queue && v.polling == r.polling && v.holders == r.holders && v.s.released == r.s.released;
    forall other | other in v.s.queue && Starts(v.s, other) && v.s.fns[other].Hold?
      ensures other in v.polling
    {
      assert Starts(r.s, other) && r.s.fns[other] == v.s.fns[other];
    }
  }

  lemma {:induction false} OtherKeepsAwaited(r: Run, e: Event)
    requires Inv(r) && Awaited(r) && Enabled(r, e) && (e.Polls? || e.Releases? || e.Ends? || e.Clears?)
    ensures Awaited(Next(r, e))
  {
    hide Increasing, Elements, LaterThan;
    var v := Next(r, e);
    assert v.s.queue == r.s.queue && v.s.fns == r.s.fns;
    forall id | id in v.s.queue && Starts(v.s, id) && v.s.fns[id].Hold?
      ensures id in v.polling
    {
      OtherStarts(r, e, id);
    }
  }

  lemma {:induction false} OtherStarts(r: Run, e: Event, id: Id)
    requires Inv(r) && Awaited(r) && Enabled(r, e) && (e.Polls? || e.Releases? || e.Ends? || e.Clears?)
    requires id in r.s.queue && Starts(Next(r, e).s, id) && r.s.fns[id].Hold?
    ensures id in Next(r, e).polling
  {
    hide Increasing, Elements, LaterThan;
    assert id !in r.started;
    if e.Ends? {
      assert id != r.s.running.value;
    }
    assert Starts(r.s, id);
  }

  lemma {:induction false} StepKeepsAwaited(r: Run, e: Event)
    requires Inv(r) && Awaited(r) && Enabled(r, e)
    ensures Awaited(Next(r, e))
  {
    match e {
      case Submits => SubmitKeepsAwaited(r, Work, r.polling);
      case Acquires =>
        SubmitKeepsAwaited(r, Hold, r.polling + {r.s.next});
        AcquireAwaited(r);
      case Takes => TakeKeepsAwaited(r);
      case _ => OtherKeepsAwaited(r, e);
    }
  }

  lemma {:induction false} AcquireAwaited(r: Run)
    requires Awaited(r.(s := AfterSubmit(r.s, Hold), polling := r.polling + {r.s.next}))
    ensures Awaited(Next(r, Acquires))
  {
    hide AfterSubmit;
    var t := AfterSubmit(r.s, Hold);
    assert forall id :: Starts(AfterAcquire(r.s), id) <==> Starts(t, id);
  }

  /** A behaviour of the queue: at every moment an event, or nothing. */
  ghost predicate Behaviour(b: nat -> Run, e: nat -> Option<Event>) {
    && b(0) == START
    && forall n: nat :: Moment(b(n), e(n), b(n + 1))
  }

  ghost predicate Moment(r: Run, e: Option<Event>, v: Run) {
    match e
    case None => v == r
    case Some(event) => Enabled(r, event) && v == Next(r, event)
  }

  /** What somebody has to do: the worker to take the next, what runs to end, an acquirer to look, a holder to release. */
  datatype Duty = ToTake | ToEnd | ToPoll(id: Id) | ToRelease(id: Id)

  ghost predicate Ready(r: Run, d: Duty) {
    match d
    case ToTake => Enabled(r, Takes)
    case ToEnd => Enabled(r, Ends(true))
    case ToPoll(id) => Enabled(r, Polls(id))
    case ToRelease(id) => Enabled(r, Releases(id))
  }

  predicate Does(e: Option<Event>, d: Duty) {
    match d
    case ToTake => e == Some(Takes)
    case ToEnd => e.Some? && e.value.Ends?
    case ToPoll(id) => e == Some(Polls(id))
    case ToRelease(id) => e == Some(Releases(id))
  }

  /** What can be done from some moment on is done. */
  ghost predicate Fair(b: nat -> Run, e: nat -> Option<Event>) {
    forall d, n: nat :: AlwaysReady(b, d, n) ==> OnceDone(e, d, n)
  }

  ghost predicate AlwaysReady(b: nat -> Run, d: Duty, n: nat) {
    forall m: nat :: n <= m ==> Ready(b(m), d)
  }

  ghost predicate OnceDone(e: nat -> Option<Event>, d: Duty, n: nat) {
    exists m: nat :: n <= m && Does(e(m), d)
  }

  predicate Quiet(e: Option<Event>) {
    e.Some? ==> !e.value.Submits? && !e.value.Acquires? && !e.value.Clears?
  }

  /** The duty the queue waits for, if it is not through. */
  ghost function Due(r: Run): Option<Duty> {
    if r.s.running.None? then if r.s.queue == [] then None else Some(ToTake)
    else if Enabled(r, Ends(true)) then Some(ToEnd)
    else if r.s.running.value in r.holders then Some(ToRelease(r.s.running.value))
    else Some(ToPoll(r.s.running.value))
  }

  ghost function Stage(r: Run): nat {
    match Due(r)
    case None => 0
    case Some(d) => if d.ToTake? then 0 else if d.ToEnd? then 1 else if d.ToRelease? then 2 else 3
  }

  lemma {:induction false} DueIsReady(r: Run)
    requires Inv(r) && Awaited(r) && Due(r).Some?
    ensures Ready(r, Due(r).value)
  {
  }

  ghost predicate Nearer(r: Run, v: Run) {
    |v.s.queue| < |r.s.queue| || (v.s.queue == r.s.queue && Stage(v) < Stage(r))
  }

  lemma {:induction false} DoingHelps(r: Run, e: Event)
    requires Inv(r) && Awaited(r) && Enabled(r, e) && Due(r).Some? && Does(Some(e), Due(r).value)
    ensures Nearer(r, Next(r, e))
  {
    hide Increasing, Elements, LaterThan, Finished;
    var v := Next(r, e);
    match e {
      case Takes => assert |v.s.queue| < |r.s.queue|;
      case Ends(ok) => assert v.s.running.None? && v.s.queue == r.s.queue;
      case Polls(id) => PollHelps(r, id);
      case Releases(id) => ReleaseHelps(r, id);
    }
  }

  lemma {:induction false} PollHelps(r: Run, id: Id)
    requires Inv(r) && Awaited(r) && Due(r) == Some(ToPoll(id)) && id in r.polling
    ensures Nearer(r, Next(r, Polls(id)))
  {
    assert r.s.running == Some(id) && id in r.s.granted && id !in r.s.released;
    assert PollAnswer(r.s, id) == Granted;
    var v := Next(r, Polls(id));
    assert v.s == r.s && id in v.holders;
  }

  lemma {:induction false} ReleaseHelps(r: Run, id: Id)
    requires Inv(r) && Due(r) == Some(ToRelease(id)) && id in r.holders
    ensures Nearer(r, Next(r, Releases(id)))
  {
    assert id in r.s.releases && r.s.running == Some(id);
    var v := Next(r, Releases(id));
    assert v.s.running == Some(id) && id in v.s.released && v.s.queue == r.s.queue;
    assert Enabled(v, Ends(true));
  }

  lemma {:induction false} WaitingStays(r: Run, e: Event)
    requires Inv(r) && Awaited(r) && Enabled(r, e) && Quiet(Some(e))
    requires Due(r).Some? && !Does(Some(e), Due(r).value)
    ensures Due(Next(r, e)) == Due(r) && Next(r, e).s.queue == r.s.queue
  {
    hide Increasing, Elements, LaterThan, Finished;
    if e.Releases? {
      HolderIsDue(r, e.id);
    } else if e.Polls? {
      var v := Next(r, e);
      GrantedIsDue(r, e.id);
      assert v.s.running == r.s.running && v.s.granted == r.s.granted && v.s.released == r.s.released;
      assert v.holders == r.holders && v.s.queue == r.s.queue;
    }
  }

  lemma {:induction false} GrantedIsDue(r: Run, id: Id)
    requires Inv(r) && id in r.polling
    ensures id in r.s.granted ==> Due(r) == Some(ToPoll(id))
  {
  }

  lemma {:induction false} HolderIsDue(r: Run, id: Id)
    requires Inv(r) && id in r.holders
    ensures Due(r) == Some(ToRelease(id))
  {
    assert r.s.running == Some(id) && id in r.s.granted && id !in r.s.released;
  }

  lemma {:induction false} AlwaysInv(b: nat -> Run, e: nat -> Option<Event>, n: nat)
    requires Behaviour(b, e)
    ensures Inv(b(n)) && Awaited(b(n))
  {
    hide Inv, Awaited, Next, Enabled;
    if n == 0 {
      StartInv();
      StartAwaited();
    } else {
      AlwaysInv(b, e, n - 1);
      assert Moment(b(n - 1), e(n - 1), b(n - 1 + 1));
      if e(n - 1).Some? {
        StepKeepsInv(b(n - 1), e(n - 1).value);
        StepKeepsAwaited(b(n - 1), e(n - 1).value);
      }
    }
  }

  lemma StartAwaited()
    ensures Awaited(START)
  {
  }

  lemma {:induction false} QuietPlan(b: nat -> Run, e: nat -> Option<Event>, n: nat, m: nat)
    requires Behaviour(b, e) && n <= m && forall k: nat :: n <= k ==> Quiet(e(k))
    ensures Plan(b(m)) == Plan(b(n))
  {
    hide Inv, Awaited, Next, Enabled, Plan;
    if n < m {
      QuietPlan(b, e, n, m - 1);
      AlwaysInv(b, e, m - 1);
      assert Moment(b(m - 1), e(m - 1), b(m - 1 + 1)) && Quiet(e(m - 1));
      if e(m - 1).Some? {
        PlanIsKept(b(m - 1), e(m - 1).value);
      }
    }
  }

  /** Until its duty is done nothing else moves the queue. */
  lemma {:induction false} StaysDue(b: nat -> Run, e: nat -> Option<Event>, n: nat, m: nat)
    requires Behaviour(b, e) && n <= m && (forall k: nat :: n <= k ==> Quiet(e(k)))
    requires Due(b(n)).Some? && forall k: nat :: n <= k < m ==> !Does(e(k), Due(b(n)).value)
    ensures Due(b(m)) == Due(b(n)) && b(m).s.queue == b(n).s.queue
  {
    hide Inv, Awaited, Next, Enabled, Due;
    if n < m {
      StaysDue(b, e, n, m - 1);
      AlwaysInv(b, e, m - 1);
      assert Moment(b(m - 1), e(m - 1), b(m - 1 + 1)) && Quiet(e(m - 1));
      if e(m - 1).Some? {
        WaitingStays(b(m - 1), e(m - 1).value);
      }
    }
  }

  lemma {:induction false} FirstDoes(e: nat -> Option<Event>, d: Duty, n: nat, some: nat) returns (m: nat)
    requires n <= some && Does(e(some), d)
    ensures n <= m && Does(e(m), d) && forall k: nat :: n <= k < m ==> !Does(e(k), d)
    decreases some - n
  {
    if Does(e(n), d) {
      m := n;
    } else {
      m := FirstDoes(e, d, n + 1, some);
    }
  }

  lemma {:induction false} ForeverReady(b: nat -> Run, e: nat -> Option<Event>, n: nat)
    requires Behaviour(b, e) && (forall k: nat :: n <= k ==> Quiet(e(k))) && Due(b(n)).Some?
    requires forall k: nat :: n <= k ==> !Does(e(k), Due(b(n)).value)
    ensures AlwaysReady(b, Due(b(n)).value, n)
  {
    hide Inv, Awaited, Next, Enabled, Due, Ready;
    forall k: nat | n <= k
      ensures Ready(b(k), Due(b(n)).value)
    {
      StaysDue(b, e, n, k);
      AlwaysInv(b, e, k);
      DueIsReady(b(k));
    }
  }

  /** The moment at which the duty that is due is done. */
  lemma {:induction false} DutyDone(b: nat -> Run, e: nat -> Option<Event>, n: nat) returns (m: nat)
    requires Behaviour(b, e) && Fair(b, e) && (forall k: nat :: n <= k ==> Quiet(e(k))) && Due(b(n)).Some?
    ensures n <= m && Does(e(m), Due(b(n)).value) && Due(b(m)) == Due(b(n)) && b(m).s.queue == b(n).s.queue
  {
    hide Inv, Awaited, Next, Enabled, Due, Ready;
    var d := Due(b(n)).value;
    if forall k: nat :: n <= k ==> !Does(e(k), d) {
      ForeverReady(b, e, n);
      assert OnceDone(e, d, n);
    }
    var some: nat :| n <= some && Does(e(some), d);
    m := FirstDoes(e, d, n, some);
    StaysDue(b, e, n, m);
  }

  lemma {:induction false} DrainsBy(b: nat -> Run, e: nat -> Option<Event>, n: nat) returns (m: nat)
    requires Behaviour(b, e) && Fair(b, e) && forall k: nat :: n <= k ==> Quiet(e(k))
    ensures n <= m && Due(b(m)).None?
    decreases |b(n).s.queue|, Stage(b(n))
  {
    hide Inv, Awaited, Next, Enabled, Due, Ready, Fair;
    if Due(b(n)).None? {
      m := n;
    } else {
      var k := DutyDone(b, e, n);
      AlwaysInv(b, e, k);
      assert Moment(b(k), e(k), b(k + 1));
      DoingHelps(b(k), e(k).value);
      m := DrainsBy(b, e, k + 1);
    }
  }

  /** When nothing more is submitted or cleared, every fair behaviour, in which granted leases are released, comes to an
      idle worker and an empty queue, and has started exactly the planned tasks, in order. */
  lemma QueueDrains(b: nat -> Run, e: nat -> Option<Event>, n: nat)
    requires Behaviour(b, e) && Fair(b, e) && forall k: nat :: n <= k ==> Quiet(e(k))
    ensures exists m: nat :: n <= m && b(m).s.running.None? && b(m).s.queue == [] && b(m).started == Plan(b(n))
  {
    var m := DrainsBy(b, e, n);
    QuietPlan(b, e, n, m);
    assert Plan(b(m)) == b(m).started + [];
  }
}
