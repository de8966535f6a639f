/** Deploy tasks, each holding the deployments it is made of, and the bounded log of their progress lines. */
module Deploys {
  import opened Options
  import opened Locks
  import opened Sequences

  const MAX_LOG_LINES: nat := 500

  datatype Status = Pending | InProgress | Completed | Errored

  predicate Terminal(s: Status) {
    s.Completed? || s.Errored?
  }

  /** members is empty for the deploy of a single automation. */
  datatype Task = Task(deploymentId: string, members: seq<string>, status: Status, log: seq<string>, startedAt: int)

  datatype State = State(next: Id, tasks: map<Id, Task>, active: Table)

  const EMPTY: State := State(0, map[], map[])

  /** What ending a task frees. */
  function Freed(t: Task): seq<string> {
    if t.members != [] then t.members else [t.deploymentId]
  }

  function Lists(s: State): map<Id, seq<string>> {
    map id | id in s.tasks :: Freed(s.tasks[id])
  }

  // ----------------------------------------------------------------- steps

  function AfterCreate(s: State, deploymentId: string, now: int): State {
    if deploymentId in s.active then s
    else s.(next := s.next + 1, tasks := s.tasks[s.next := Task(deploymentId, [], Pending, [], now)],
            active := s.active[deploymentId := s.next])
  }

  function AfterCreateBp(s: State, bp: string, ids: seq<string>, now: int): State {
    if FirstHeld(s.active, ids).Some? then s
    else s.(next := s.next + 1,
            tasks := s.tasks[s.next := Task(if ids != [] then ids[0] else bp, ids, Pending, [], now)],
            active := ReserveAll(s.active, ids, s.next))
  }

  /** A progress line joins the log unless it repeats the last one; the oldest lines make room. */
  function Logged(log: seq<string>, message: string): seq<string> {
    if log != [] && log[|log| - 1] == message then log
    else if |log| + 1 > MAX_LOG_LINES then (log + [message])[|log| + 1 - MAX_LOG_LINES..]
    else log + [message]
  }

  function Updated(t: Task, status: Option<Status>, message: Option<string>): Task {
    t.(status := if status.Some? then status.value else t.status,
       log := if message.Some? then Logged(t.log, message.value) else t.log)
  }

  predicate Ends(status: Option<Status>) {
    status.Some? && Terminal(status.value)
  }

  function AfterUpdate(s: State, id: Id, status: Option<Status>, message: Option<string>): State {
    if id !in s.tasks then s
    else s.(tasks := s.tasks[id := Updated(s.tasks[id], status, message)],
            active := if Ends(status) then PopAll(s.active, Freed(s.tasks[id])) else s.active)
  }

  function AfterRelease(s: State, id: Id): State {
    if id !in s.tasks then s else s.(active := PopAll(s.active, Freed(s.tasks[id])))
  }

  function Expired(s: State, now: int, maxAge: int): set<Id> {
    set id | id in s.tasks && Terminal(s.tasks[id].status) && now - s.tasks[id].startedAt > maxAge
  }

  function AfterCleanup(s: State, now: int, maxAge: int): State {
    s.(tasks := s.tasks - Expired(s, now, maxAge))
  }

  // ------------------------------------------------------------------ runs

  datatype Event =
    | Create(deploymentId: string, now: int)
    | CreateBp(bp: string, ids: seq<string>, now: int)
    | Update(id: Id, status: Option<Status>, message: Option<string>)
    | Release(id: Id)
    | Cleanup(at: int, maxAge: int)

  /** The manager and the tasks created and neither completed, failed nor released. */
  datatype Run = Run(s: State, live: set<Id>)

  const START: Run := Run(EMPTY, {})

  function Next(r: Run, e: Event): Run {
    match e
    case Create(did, now) =>
      Run(AfterCreate(r.s, did, now), if did in r.s.active then r.live else r.live + {r.s.next})
    case CreateBp(bp, ids, now) =>
      Run(AfterCreateBp(r.s, bp, ids, now), if FirstHeld(r.s.active, ids).Some? then r.live else r.live + {r.s.next})
    case Update(id, status, message) =>
      Run(AfterUpdate(r.s, id, status, message), if Ends(status) then r.live - {id} else r.live)
    case Release(id) => Run(AfterRelease(r.s, id), r.live - {id})
    case Cleanup(at, maxAge) => Run(AfterCleanup(r.s, at, maxAge), r.live)
  }

  function After(es: seq<Event>): Run {
    if es == [] then START else Next(After(es[..|es| - 1]), es[|es| - 1])
  }

  /** What needs no discipline: every lock taken is held by a live, retained, unfinished task that lists it. */
  ghost predicate Backed(r: Run) {
    && Owned(r.s.active, Lists(r.s), r.live)
    && (forall id :: id in r.s.tasks ==> id < r.s.next)
    && (forall id :: id in r.live ==> id in r.s.tasks && !Terminal(r.s.tasks[id].status))
  }

  ghost predicate Inv(r: Run) {
    Backed(r) && Exclusive(r.s.active, Lists(r.s), r.live)
  }

  /** The task this event frees, if any. */
  function FreedBy(r: Run, e: Event): Option<Id> {
    match e
    case Update(id, status, _) => if Ends(status) && id in r.s.tasks then Some(id) else None
    case Release(id) => if id in r.s.tasks then Some(id) else None
    case _ => None
  }

  /** No task is freed again once another holds one of its deployments, and no empty set is deployed. */
  ghost predicate Disciplined(r: Run, e: Event) {
    && (FreedBy(r, e).Some? ==>
          var id := FreedBy(r, e).value;
          forall k :: k in Freed(r.s.tasks[id]) && k in r.s.active ==> r.s.active[k] == id)
    && (e.CreateBp? ==> e.ids != [])
  }

  lemma {:induction false} ListsExtends(s: State, t: State, id: Id)
    requires id in t.tasks && t.tasks == s.tasks[id := t.tasks[id]]
    ensures Lists(t) == Lists(s)[id := Freed(t.tasks[id])]
  {
  }

  lemma {:induction false} CreationLists(r: Run, e: Event)
    requires Backed(r) && Next(r, e).s.next == r.s.next + 1
    ensures (e.Create? && e.deploymentId !in r.s.active)
         || (e.CreateBp? && FirstHeld(r.s.active, e.ids).None?)
    ensures var keys := if e.Create? then [e.deploymentId] else e.ids;
            var listed := if keys != [] then keys else [e.bp];
            && Next(r, e).s.active == ReserveAll(r.s.active, keys, r.s.next)
            && Lists(Next(r, e).s) == Lists(r.s)[r.s.next := listed]
            && Next(r, e).live == r.live + {r.s.next}
  {
    var keys := if e.Create? then [e.deploymentId] else e.ids;
    var listed := if keys != [] then keys else [e.bp];
    hide ReserveAll, FirstHeld;
    var t := Next(r, e).s.tasks;
    assert t == r.s.tasks[r.s.next := t[r.s.next]] && Freed(t[r.s.next]) == listed;
    ListsExtends(r.s, Next(r, e).s, r.s.next);
  }

  lemma {:induction false} UpdateLists(r: Run, e: Event)
    requires e.Update? || e.Release?
    ensures Lists(Next(r, e).s) == Lists(r.s)
    ensures var id := FreedBy(r, e);
            Next(r, e).s.active == if id.Some? then PopAll(r.s.active, Freed(r.s.tasks[id.value])) else r.s.active
  {
  }

  lemma {:induction false} StepKeepsBacked(r: Run, e: Event)
    requires Backed(r)
    ensures Backed(Next(r, e))
  {
    if e.Create? || e.CreateBp? {
      if Next(r, e).s.next == r.s.next + 1 {
        CreationLists(r, e);
      }
    } else if e.Cleanup? {
      assert Lists(Next(r, e).s) == Lists(r.s) - Expired(r.s, e.at, e.maxAge);
    } else {
      FreeingKeepsBacked(r, e);
    }
  }

  lemma {:induction false} FreeingKeepsBacked(r: Run, e: Event)
    requires Backed(r) && (e.Update? || e.Release?)
    ensures Backed(Next(r, e))
  {
    UpdateLists(r, e);
    if FreedBy(r, e).Some? {
      var id := FreedBy(r, e).value;
      PopAllKeepsOwned(r.s.active, Lists(r.s), r.live, id, Freed(r.s.tasks[id]));
    }
  }

  lemma {:induction false} RunKeepsBacked(es: seq<Event>)
    ensures Backed(After(es))
  {
    if es != [] {
      RunKeepsBacked(es[..|es| - 1]);
      StepKeepsBacked(After(es[..|es| - 1]), es[|es| - 1]);
    }
  }

  /** With discipline the locks stay exclusive. */
  lemma {:induction false} StepKeepsInv(r: Run, e: Event)
    requires Inv(r) && Disciplined(r, e)
    ensures Inv(Next(r, e))
  {
    StepKeepsBacked(r, e);
    var lists := Lists(r.s);
    if e.Create? || e.CreateBp? {
      if Next(r, e).s.next == r.s.next + 1 {
        CreationLists(r, e);
        var keys := if e.Create? then [e.deploymentId] else e.ids;
        ReserveKeepsExclusive(r.s.active, lists, r.live, r.s.next, keys);
      }
    } else if e.Cleanup? {
      var gone := Expired(r.s, e.at, e.maxAge);
      assert Lists(Next(r, e).s) == lists - gone;
      ForgetKeepsExclusive(r.s.active, lists, r.live, gone);
    } else {
      UpdateLists(r, e);
      if FreedBy(r, e).Some? {
        var id := FreedBy(r, e).value;
        PopAllExact(r.s.active, lists, r.live, id, Freed(r.s.tasks[id]));
      } else {
        assert e.id !in r.live || !(e.Release? || Ends(e.status));
        assert Next(r, e).live == r.live;
      }
    }
  }

  ghost predicate DisciplinedRun(es: seq<Event>) {
    forall i :: 0 <= i < |es| ==> Disciplined(After(es[..i]), es[i])
  }

  lemma {:induction false} RunKeepsInv(es: seq<Event>)
    requires DisciplinedRun(es)
    ensures Inv(After(es))
  {
    if es != [] {
      var init := es[..|es| - 1];
      assert forall i :: 0 <= i < |init| ==> init[..i] == es[..i];
      RunKeepsInv(init);
      StepKeepsInv(After(init), es[|es| - 1]);
    }
  }

  // ---------------------------------------------------------- main results

  /** In every run a lock taken belongs to a retained, unfinished task that lists it; so cleanup never drops a holder. */
  lemma LocksAreBacked(es: seq<Event>, key: string)
    requires key in After(es).s.active
    ensures var s := After(es).s;
            var id := s.active[key];
            id in s.tasks && !Terminal(s.tasks[id].status) && key in Freed(s.tasks[id])
  {
    RunKeepsBacked(es);
  }

  /** In every run a task that completed, failed or was released holds nothing. */
  lemma EndedHoldsNothing(es: seq<Event>, e: Event, id: Id, key: string)
    requires FreedBy(After(es), e) == Some(id) && key in Next(After(es), e).s.active
    ensures Next(After(es), e).s.active[key] != id
  {
    RunKeepsBacked(es);
    StepKeepsBacked(After(es), e);
  }

  /** In disciplined runs two live tasks never deploy the same thing, and each holds all it lists. */
  lemma LiveHoldsAlone(es: seq<Event>, id: Id, other: Id, key: string)
    requires DisciplinedRun(es) && id in After(es).live && other in After(es).live
    requires id in After(es).s.tasks && key in Freed(After(es).s.tasks[id])
    requires other in After(es).s.tasks && key in Freed(After(es).s.tasks[other])
    ensures id == other && key in After(es).s.active && After(es).s.active[key] == id
  {
    RunKeepsInv(es);
    NoSharing(After(es).s.active, Lists(After(es).s), After(es).live, id, other, key);
  }

  /** An update records the status, and ending a task, however it ends, frees its members, or the one deployment it is
      for; until then it changes no lock. */
  lemma UpdateRecords(s: State, id: Id, status: Status, message: Option<string>)
    requires id in s.tasks
    ensures var t, own := AfterUpdate(s, id, Some(status), message), s.tasks[id];
            && t.tasks.Keys == s.tasks.Keys && t.tasks[id].status == status
            && t.tasks[id].members == own.members && t.tasks[id].deploymentId == own.deploymentId
            && (forall other :: other in s.tasks && other != id ==> t.tasks[other] == s.tasks[other])
            && (status == Pending || status == InProgress ==> t.active == s.active)
            && (status == Completed || status == Errored ==>
                  forall k :: k in t.active <==> (k in s.active && !Frees(own, k)))
            && (forall k :: k in t.active ==> t.active[k] == s.active[k])
  {
  }

  ghost predicate Frees(t: Task, k: string) {
    k in t.members || (t.members == [] && k == t.deploymentId)
  }

  /** Freeing a task keeps the locks exclusive exactly when no other task holds one of its deployments by then. */
  lemma FreeingExact(r: Run, e: Event)
    requires Inv(r) && FreedBy(r, e).Some?
    ensures Inv(Next(r, e)) <==> Disciplined(r, e)
  {
    StepKeepsBacked(r, e);
    UpdateLists(r, e);
    var id := FreedBy(r, e).value;
    PopAllExact(r.s.active, Lists(r.s), r.live, id, Freed(r.s.tasks[id]));
  }

  /** Without discipline: a deploy that ended, then is released after its deployment was reserved again, lets
      a third deploy in. */
  function DoubleRelease(x: string): seq<Event> {
    [CreateBp("bp", [x], 0), Update(0, Some(Completed), None), CreateBp("bp", [x], 1), Release(0), CreateBp("bp", [x], 2)]
  }

  /** The events up to some point, one at a time. */
  lemma AfterPrefix(es: seq<Event>, n: nat)
    requires n < |es|
    ensures After(es[..n + 1]) == Next(After(es[..n]), es[n])
  {
    assert es[..n + 1][..n] == es[..n];
  }

  lemma FirstEnded(x: string)
    ensures var r := After(DoubleRelease(x)[..2]);
            && r.s.active == map[] && r.live == {} && r.s.next == 1 && r.s.tasks.Keys == {0}
            && Freed(r.s.tasks[0]) == [x]
  {
    var es := DoubleRelease(x);
    AfterPrefix(es, 0);
    AfterPrefix(es, 1);
    assert es[..0] == [];
    assert After(es[..1]).s.active == map[x := 0];
  }

  lemma SecondCreated(x: string)
    ensures var r := After(DoubleRelease(x)[..3]);
            && r.s.active == map[x := 1] && r.live == {1} && r.s.next == 2 && r.s.tasks.Keys == {0, 1}
            && Freed(r.s.tasks[0]) == [x] && Freed(r.s.tasks[1]) == [x]
  {
    FirstEnded(x);
    AfterPrefix(DoubleRelease(x), 2);
    hide After;
  }

  lemma SecondReleased(x: string)
    ensures var r := After(DoubleRelease(x)[..4]);
            && r.s.active == map[] && r.live == {1} && r.s.next == 2 && 1 in r.s.tasks && Freed(r.s.tasks[1]) == [x]
  {
    SecondCreated(x);
    AfterPrefix(DoubleRelease(x), 3);
    hide After;
  }

  lemma DoubleReleaseShares(x: string)
    ensures var r := After(DoubleRelease(x));
            && 1 in r.live && 2 in r.live && 1 in r.s.tasks && 2 in r.s.tasks
            && x in Freed(r.s.tasks[1]) && x in Freed(r.s.tasks[2]) && r.s.active == map[x := 2]
  {
    var es := DoubleRelease(x);
    SecondReleased(x);
    AfterPrefix(es, 4);
    assert es[..5] == es;
  }

  // ---------------------------------------------------------------- the log

  /** The lines of a history with consecutive repeats collapsed. */
  function Collapse(lines: seq<string>): seq<string> {
    if lines == [] then []
    else if |lines| > 1 && lines[|lines| - 2] == lines[|lines| - 1] then Collapse(lines[..|lines| - 1])
    else Collapse(lines[..|lines| - 1]) + [lines[|lines| - 1]]
  }

  function LogOf(lines: seq<string>): seq<string> {
    if lines == [] then [] else Logged(LogOf(lines[..|lines| - 1]), lines[|lines| - 1])
  }

  lemma {:induction false} CollapseEnds(lines: seq<string>)
    ensures lines != [] ==> Collapse(lines) != [] && Collapse(lines)[|Collapse(lines)| - 1] == lines[|lines| - 1]
  {
    if |lines| > 1 {
      CollapseEnds(lines[..|lines| - 1]);
    }
  }

  lemma {:induction false} LogOfIsLast(lines: seq<string>)
    ensures LogOf(lines) == Last(MAX_LOG_LINES, Collapse(lines))
  {
    if lines != [] {
      var init, m := lines[..|lines| - 1], lines[|lines| - 1];
      LogOfIsLast(init);
      CollapseEnds(init);
      LastSnoc(MAX_LOG_LINES, Collapse(init), m);
      LoggedIsLast(LogOf(init), m);
      if init != [] {
        assert lines[|lines| - 2] == init[|init| - 1];
      }
    }
  }

  /** The messages that a task was sent while the manager knew it. */
  function Messages(es: seq<Event>, id: Id): seq<string> {
    if es == [] then []
    else
      var before, e := es[..|es| - 1], es[|es| - 1];
      Messages(before, id)
      + if e.Update? && e.id == id && e.message.Some? && id in After(before).s.tasks then [e.message.value] else []
  }

  /** One event and the log of one task. */
  lemma {:induction false} LogStep(r: Run, e: Event, id: Id)
    requires Backed(r) && id in Next(r, e).s.tasks
    ensures var log := Next(r, e).s.tasks[id].log;
            if id !in r.s.tasks then id == r.s.next && log == []
            else if e.Update? && e.id == id && e.message.Some? then log == Logged(r.s.tasks[id].log, e.message.value)
            else log == r.s.tasks[id].log
  {
  }

  lemma {:induction false} NoMessagesBefore(es: seq<Event>, id: Id)
    requires After(es).s.next <= id
    ensures Messages(es, id) == []
  {
    if es != [] {
      var before, e := es[..|es| - 1], es[|es| - 1];
      assert After(before).s.next <= After(es).s.next;
      RunKeepsBacked(before);
      NoMessagesBefore(before, id);
    }
  }

  lemma {:induction false} LogOfMessages(es: seq<Event>, id: Id)
    requires id in After(es).s.tasks
    ensures After(es).s.tasks[id].log == LogOf(Messages(es, id))
  {
    var before, e := es[..|es| - 1], es[|es| - 1];
    RunKeepsBacked(before);
    LogStep(After(before), e, id);
    if id in After(before).s.tasks {
      LogOfMessages(before, id);
      if e.Update? && e.id == id && e.message.Some? {
        LogOfSnoc(Messages(before, id), e.message.value);
      } else {
        assert Messages(es, id) == Messages(before, id);
      }
    } else {
      NoMessagesBefore(before, id);
      assert Messages(es, id) == [];
    }
  }

  lemma LogOfSnoc(lines: seq<string>, m: string)
    ensures LogOf(lines + [m]) == Logged(LogOf(lines), m)
  {
    assert (lines + [m])[..|lines|] == lines;
  }

  /** In every run a task's log is the last 500 lines of all its messages, consecutive repeats collapsed. */
  lemma LogIsRecentHistory(es: seq<Event>, id: Id)
    requires id in After(es).s.tasks
    ensures After(es).s.tasks[id].log == Last(500, Collapse(Messages(es, id)))
  {
    LogOfMessages(es, id);
    LogOfIsLast(Messages(es, id));
  }

  lemma LoggedIsLast(log: seq<string>, m: string)
    ensures Logged(log, m) == if log != [] && log[|log| - 1] == m then log else Last(MAX_LOG_LINES, log + [m])
  {
  }

  // -------------------------------------------------------------- the class

  datatype Created = Reserved(id: Id) | Conflict(deploymentId: string)

  class Manager {
    var next: Id
    var tasks: map<Id, Task>
    var active: Table
    ghost var live: set<Id>

    ghost function View(): Run
      reads this
    {
      Run(State(next, tasks, active), live)
    }

    constructor ()
      ensures View() == START
    {
      next, tasks, active, live := 0, map[], map[], {};
    }

    predicate IsDeploying(deploymentId: string)
      reads this
    {
      deploymentId in active
    }

    /** Nothing is returned when the deployment is already being deployed. */
    method CreateTask(deploymentId: string, now: int) returns (r: Option<Id>)
      modifies this
      ensures View() == Next(old(View()), Create(deploymentId, now))
      ensures r == if deploymentId in old(active) then None else Some(old(next))
    {
      if deploymentId in active {
        return None;
      }
      var id := next;
      next := next + 1;
      tasks := tasks[id := Task(deploymentId, [], Pending, [], now)];
      active := active[deploymentId := id];
      live := live + {id};
      return Some(id);
    }

    /** Reserves every member or, when one is taken, none. */
    method CreateBpTask(bp: string, ids: seq<string>, now: int) returns (r: Created)
      modifies this
      ensures View() == Next(old(View()), CreateBp(bp, ids, now))
      ensures var held := FirstHeld(old(active), ids);
              r == if held.Some? then Conflict(held.value) else Reserved(old(next))
    {
      var held := Search(active, ids);
      if held.Some? {
        return Conflict(held.value);
      }
      var id := next;
      next := next + 1;
      tasks := tasks[id := Task(if ids != [] then ids[0] else bp, ids, Pending, [], now)];
      active := Reserve(active, ids, id);
      live := live + {id};
      return Reserved(id);
    }

    method UpdateTask(id: Id, status: Option<Status>, message: Option<string>)
      modifies this
      ensures View() == Next(old(View()), Update(id, status, message))
    {
      if id in tasks {
        var task := tasks[id];
        if status.Some? {
          task := task.(status := status.value);
        }
        if message.Some? {
          if task.log == [] || task.log[|task.log| - 1] != message.value {
            var log := task.log + [message.value];
            if |log| > MAX_LOG_LINES {
              log := log[|log| - MAX_LOG_LINES..];
            }
            task := task.(log := log);
          }
        }
        tasks := tasks[id := task];
        if Ends(status) {
          active := Pop(active, Freed(task));
        }
      }
      if Ends(status) {
        live := live - {id};
      }
    }

    method Release(id: Id)
      modifies this
      ensures View() == Next(old(View()), Event.Release(id))
    {
      live := live - {id};
      if id !in tasks {
        return;
      }
      active := Pop(active, Freed(tasks[id]));
    }

    method CleanupOldTasks(now: int, maxAge: int)
      modifies this
      ensures View() == Next(old(View()), Cleanup(now, maxAge))
    {
      var gone := set id | id in tasks && Terminal(tasks[id].status) && now - tasks[id].startedAt > maxAge;
      tasks := tasks - gone;
    }
  }
}
