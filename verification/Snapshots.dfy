/** Snapshot, restore and clone tasks, each holding every stage of a business process it touches. */
module Snapshots {
  import opened Options
  import opened Locks

  datatype Status = Pending | InProgress | Completed | Errored

  predicate Terminal(s: Status) {
    s.Completed? || s.Errored?
  }

  datatype Task = Task(bp: string, stages: seq<string>, status: Status, startedAt: int)

  datatype State = State(next: Id, tasks: map<Id, Task>, active: Table)

  const EMPTY: State := State(0, map[], map[])

  function Key(bp: string, stage: string): string {
    bp + ":" + stage
  }

  function KeysOf(bp: string, stages: seq<string>): (keys: seq<string>)
    ensures |keys| == |stages|
  {
    seq(|stages|, i requires 0 <= i < |stages| => Key(bp, stages[i]))
  }

  function Lists(s: State): map<Id, seq<string>> {
    map id | id in s.tasks :: KeysOf(s.tasks[id].bp, s.tasks[id].stages)
  }

  // ----------------------------------------------------------------- steps

  datatype Created = Reserved(id: Id) | Conflict(stage: string)

  /** The first stage that is busy. */
  function FirstBusy(s: State, bp: string, stages: seq<string>): (r: Option<string>)
    ensures r.Some? <==> FirstHeld(s.active, KeysOf(bp, stages)).Some?
    ensures r.Some? ==> r.value in stages && Key(bp, r.value) in s.active
  {
    if stages == [] then None
    else
      assert KeysOf(bp, stages)[1..] == KeysOf(bp, stages[1..]);
      if Key(bp, stages[0]) in s.active then Some(stages[0]) else FirstBusy(s, bp, stages[1..])
  }

  function AfterCreate(s: State, bp: string, stages: seq<string>, now: int): State {
    if FirstBusy(s, bp, stages).Some? then s
    else s.(next := s.next + 1, tasks := s.tasks[s.next := Task(bp, stages, Pending, now)],
            active := ReserveAll(s.active, KeysOf(bp, stages), s.next))
  }

  function AfterUpdate(s: State, id: Id, status: Option<Status>): State {
    if id !in s.tasks || status.None? then s
    else
      var t := s.(tasks := s.tasks[id := s.tasks[id].(status := status.value)]);
      if Terminal(status.value) then t.(active := PopOwned(s.active, KeysOf(s.tasks[id].bp, s.tasks[id].stages), id)) else t
  }

  function Expired(s: State, now: int, maxAge: int): set<Id> {
    set id | id in s.tasks && Terminal(s.tasks[id].status) && now - s.tasks[id].startedAt > maxAge
  }

  function AfterCleanup(s: State, now: int, maxAge: int): State {
    s.(tasks := s.tasks - Expired(s, now, maxAge))
  }

  ghost predicate Busy(s: State, bp: string, stage: string) {
    Key(bp, stage) in s.active
  }

  // -------------------------------------------------------------- the class

  class Manager {
    var next: Id
    var tasks: map<Id, Task>
    var active: Table

    ghost function View(): State
      reads this
    {
      State(next, tasks, active)
    }

    constructor ()
      ensures View() == EMPTY
    {
      next, tasks, active := 0, map[], map[];
    }

    predicate IsBusy(bp: string, stage: string): (busy: bool)
      reads this
      ensures busy == Busy(View(), bp, stage)
    {
      Key(bp, stage) in active
    }

    method FindBusy(bp: string, stages: seq<string>) returns (r: Option<string>)
      ensures r == FirstBusy(View(), bp, stages)
    {
      for i := 0 to |stages|
        invariant FirstBusy(View(), bp, stages) == FirstBusy(View(), bp, stages[i..])
      {
        if Key(bp, stages[i]) in active {
          return Some(stages[i]);
        }
      }
      return None;
    }

    /** Reserves every stage or, when one is busy, none. */
    method CreateTask(bp: string, stages: seq<string>, now: int) returns (r: Created)
      modifies this
      ensures View() == AfterCreate(old(View()), bp, stages, now)
      ensures var busy := FirstBusy(old(View()), bp, stages);
              r == if busy.Some? then Conflict(busy.value) else Reserved(old(next))
    {
      var busy := FindBusy(bp, stages);
      if busy.Some? {
        return Conflict(busy.value);
      }
      var id := next;
      next := next + 1;
      tasks := tasks[id := Task(bp, stages, Pending, now)];
      active := Reserve(active, KeysOf(bp, stages), id);
      return Reserved(id);
    }

    method UpdateTask(id: Id, status: Option<Status>)
      modifies this
      ensures View() == AfterUpdate(old(View()), id, status)
    {
      if id !in tasks || status.None? {
        return;
      }
      var task := tasks[id];
      tasks := tasks[id := task.(status := status.value)];
      if Terminal(status.value) {
        active := PopIfOwned(active, KeysOf(task.bp, task.stages), id);
      }
    }

    method CleanupOldTasks(now: int, maxAge: int)
      modifies this
      ensures View() == AfterCleanup(old(View()), now, maxAge)
    {
      var gone := set id | id in tasks && Terminal(tasks[id].status) && now - tasks[id].startedAt > maxAge;
      tasks := tasks - gone;
    }
  }

  // ------------------------------------------------------------------ runs

  datatype Event =
    | Create(bp: string, stages: seq<string>, now: int)
    | Update(id: Id, status: Option<Status>)
    | Cleanup(at: int, maxAge: int)

  /** The manager and the tasks created and not yet completed or failed. */
  datatype Run = Run(s: State, live: set<Id>)

  function Next(r: Run, e: Event): Run {
    match e
    case Create(bp, stages, now) =>
      Run(AfterCreate(r.s, bp, stages, now), if FirstBusy(r.s, bp, stages).Some? then r.live else r.live + {r.s.next})
    case Update(id, status) =>
      Run(AfterUpdate(r.s, id, status), if status.Some? && Terminal(status.value) then r.live - {id} else r.live)
    case Cleanup(at, maxAge) => Run(AfterCleanup(r.s, at, maxAge), r.live)
  }

  function After(es: seq<Event>): Run {
    if es == [] then Run(EMPTY, {}) else Next(After(es[..|es| - 1]), es[|es| - 1])
  }

  ghost predicate Inv(r: Run) {
    && Exclusive(r.s.active, Lists(r.s), r.live)
    && (forall id :: id in r.s.tasks ==> id < r.s.next)
    && (forall id :: id in r.live ==> id in r.s.tasks && !Terminal(r.s.tasks[id].status))
  }

  lemma {:induction false} CreateKeepsInv(r: Run, e: Event)
    requires Inv(r) && e.Create?
    ensures Inv(Next(r, e))
  {
    if FirstBusy(r.s, e.bp, e.stages).None? {
      var r' := Next(r, e);
      assert Lists(r'.s) == Lists(r.s)[r.s.next := KeysOf(e.bp, e.stages)];
      ReserveKeepsExclusive(r.s.active, Lists(r.s), r.live, r.s.next, KeysOf(e.bp, e.stages));
    }
  }

  lemma {:induction false} UpdateKeepsInv(r: Run, e: Event)
    requires Inv(r) && e.Update?
    ensures Inv(Next(r, e))
  {
    if e.id in r.s.tasks && e.status.Some? {
      assert Lists(Next(r, e).s) == Lists(r.s);
      if Terminal(e.status.value) {
        PopOwnedKeepsExclusive(r.s.active, Lists(r.s), r.live, e.id);
      }
    }
  }

  lemma {:induction false} CleanupKeepsInv(r: Run, e: Event)
    requires Inv(r) && e.Cleanup?
    ensures Inv(Next(r, e))
  {
    var gone := Expired(r.s, e.at, e.maxAge);
    assert Lists(Next(r, e).s) == Lists(r.s) - gone;
    ForgetKeepsExclusive(r.s.active, Lists(r.s), r.live, gone);
  }

  lemma {:induction false} RunKeepsInv(es: seq<Event>)
    ensures Inv(After(es))
  {
    if es != [] {
      RunKeepsInv(es[..|es| - 1]);
      var r, e := After(es[..|es| - 1]), es[|es| - 1];
      match e {
        case Create(_, _, _) => CreateKeepsInv(r, e);
        case Update(_, _) => UpdateKeepsInv(r, e);
        case Cleanup(_, _) => CleanupKeepsInv(r, e);
      }
    }
  }

  // ---------------------------------------------------------- main results

  /** Every lock taken belongs to a retained task that is not finished and lists it; so cleanup never drops a holder. */
  lemma LocksAreBacked(es: seq<Event>, key: string)
    requires key in After(es).s.active
    ensures var s := After(es).s;
            var id := s.active[key];
            id in s.tasks && !Terminal(s.tasks[id].status) && key in KeysOf(s.tasks[id].bp, s.tasks[id].stages)
  {
    RunKeepsInv(es);
  }

  ghost predicate Touches(s: State, id: Id, bp: string, stage: string) {
    id in s.tasks && s.tasks[id].bp == bp && stage in s.tasks[id].stages
  }

  /** Creation takes all the locks it names and no other, or, if one of them is taken, nothing at all. */
  lemma CreateAllOrNothing(s: State, bp: string, stages: seq<string>, now: int)
    ensures var t := AfterCreate(s, bp, stages, now);
            if exists stage :: stage in stages && Key(bp, stage) in s.active then t == s
            else
              && (forall stage :: stage in stages ==> Key(bp, stage) in t.active && t.active[Key(bp, stage)] == s.next)
              && (forall key :: key in t.active && key !in KeysOf(bp, stages) ==>
                    key in s.active && t.active[key] == s.active[key])
              && (forall key :: key in s.active ==> key in t.active && t.active[key] == s.active[key])
  {
    var keys := KeysOf(bp, stages);
    forall stage | stage in stages ensures Key(bp, stage) in keys {
      var i :| 0 <= i < |stages| && stages[i] == stage;
      assert keys[i] == Key(bp, stage);
    }
    if FirstHeld(s.active, keys).Some? {
      var key := FirstHeld(s.active, keys).value;
      var i :| 0 <= i < |keys| && keys[i] == key;
      assert stages[i] in stages && Key(bp, stages[i]) in s.active;
    }
  }

  /** From its creation until it completes or fails a task holds everything it lists, alone. */
  lemma LiveHoldsAlone(es: seq<Event>, id: Id, bp: string, stage: string)
    requires id in After(es).live && Touches(After(es).s, id, bp, stage)
    ensures Key(bp, stage) in After(es).s.active && After(es).s.active[Key(bp, stage)] == id
    ensures forall other :: other in After(es).live && Touches(After(es).s, other, bp, stage) ==> other == id
  {
    hide After;
    RunKeepsInv(es);
    var s := After(es).s;
    forall other | other in After(es).live && Touches(s, other, bp, stage)
      ensures Key(bp, stage) in s.active && s.active[Key(bp, stage)] == other
    {
      ListsStage(s, other, stage);
    }
  }

  lemma ListsStage(s: State, id: Id, stage: string)
    requires id in s.tasks && stage in s.tasks[id].stages
    ensures Key(s.tasks[id].bp, stage) in Lists(s)[id]
  {
    var i :| 0 <= i < |s.tasks[id].stages| && s.tasks[id].stages[i] == stage;
    assert Lists(s)[id][i] == Key(s.tasks[id].bp, stage);
  }

  /** Completing or failing a task leaves it holding nothing and takes nothing from any other task. */
  lemma EndReleasesOwnOnly(es: seq<Event>, id: Id, status: Status, key: string)
    requires status == Completed || status == Errored
    ensures var s := After(es).s;
            var t := AfterUpdate(s, id, Some(status));
            && (key in t.active ==> t.active[key] != id)
            && (key in s.active && s.active[key] != id ==> key in t.active && t.active[key] == s.active[key])
  {
    RunKeepsInv(es);
  }

  /** An update records the status and nothing else of any task, and until the task ends it changes no lock. */
  lemma UpdateRecords(s: State, id: Id, status: Status)
    requires id in s.tasks
    ensures var t := AfterUpdate(s, id, Some(status));
            && t.tasks.Keys == s.tasks.Keys && t.tasks[id] == s.tasks[id].(status := status)
            && (forall other :: other in s.tasks && other != id ==> t.tasks[other] == s.tasks[other])
            && (status == Pending || status == InProgress ==> t.active == s.active)
    ensures AfterUpdate(s, id, None) == s
  {
  }

  predicate NoColon(bp: string) {
    ':' !in bp
  }

  lemma KeyInjective(bp: string, stage: string, bp': string, stage': string)
    requires NoColon(bp) && NoColon(bp') && Key(bp, stage) == Key(bp', stage')
    ensures bp == bp' && stage == stage'
  {
    var k := Key(bp, stage);
    assert k[|bp|] == ':' && k[|bp'|] == ':';
    assert forall i :: 0 <= i < |bp| ==> k[i] == bp[i];
    assert forall i :: 0 <= i < |bp'| ==> k[i] == bp'[i];
    assert bp == k[..|bp|] && bp' == k[..|bp'|];
    assert stage == k[|bp| + 1..] && stage' == k[|bp'| + 1..];
  }

  /** With names free of `:` a stage is busy exactly when a live task of that business process lists it. */
  lemma BusyMeansListed(es: seq<Event>, bp: string, stage: string)
    requires NoColon(bp) && forall e :: e in es && e.Create? ==> NoColon(e.bp)
    ensures Busy(After(es).s, bp, stage)
       <==> exists id :: id in After(es).live && Touches(After(es).s, id, bp, stage)
  {
    RunKeepsInv(es);
    BpsFromEvents(es);
    var s := After(es).s;
    if Key(bp, stage) in s.active {
      var id := s.active[Key(bp, stage)];
      var i :| 0 <= i < |s.tasks[id].stages| && KeysOf(s.tasks[id].bp, s.tasks[id].stages)[i] == Key(bp, stage);
      KeyInjective(bp, stage, s.tasks[id].bp, s.tasks[id].stages[i]);
      assert Touches(s, id, bp, stage);
    }
    if id :| id in After(es).live && Touches(s, id, bp, stage) {
      ListsStage(s, id, stage);
    }
  }

  lemma {:induction false} BpsFromEvents(es: seq<Event>)
    requires forall e :: e in es && e.Create? ==> NoColon(e.bp)
    ensures forall id :: id in After(es).s.tasks ==> NoColon(After(es).s.tasks[id].bp)
  {
    if es != [] {
      var init := es[..|es| - 1];
      assert forall e :: e in init ==> e in es;
      BpsFromEvents(init);
      assert es[|es| - 1] in es;
    }
  }

  /** The first name goes on in the second, behind a colon, with what the first stage starts with. */
  ghost predicate RunsOn(bp: string, stage: string, bp': string, stage': string) {
    exists x: string :: bp' == bp + ":" + x && stage == x + ":" + stage'
  }

  lemma RunsOnShares(bp: string, stage: string, bp': string, stage': string)
    requires RunsOn(bp, stage, bp', stage')
    ensures Key(bp, stage) == Key(bp', stage')
  {
    var x: string :| bp' == bp + ":" + x && stage == x + ":" + stage';
    assert bp + ":" + (x + ":" + stage') == bp + ":" + x + ":" + stage';
  }

  lemma ShorterRunsOn(bp: string, stage: string, bp': string, stage': string)
    requires Key(bp, stage) == Key(bp', stage') && |bp| < |bp'|
    ensures RunsOn(bp, stage, bp', stage')
  {
    var k, x := Key(bp, stage), bp'[|bp| + 1..];
    assert k[..|bp'|] == bp' && k[..|bp|] == bp && k[|bp|] == ':' && k[|bp'|] == ':';
    assert bp' == bp + ":" + x;
    assert stage == k[|bp| + 1..] && stage' == k[|bp'| + 1..];
    assert stage == x + ":" + stage';
  }

  /** Two pairs of name and stage have one lock exactly when they are the same or one runs on in the other. */
  lemma ColonConfuses(bp: string, stage: string, bp': string, stage': string)
    ensures Key(bp, stage) == Key(bp', stage')
       <==> (bp == bp' && stage == stage') || RunsOn(bp, stage, bp', stage') || RunsOn(bp', stage', bp, stage)
  {
    if Key(bp, stage) == Key(bp', stage') {
      if |bp| < |bp'| {
        ShorterRunsOn(bp, stage, bp', stage');
      } else if |bp'| < |bp| {
        ShorterRunsOn(bp', stage', bp, stage);
      } else {
        var k := Key(bp, stage);
        assert bp == k[..|bp|] == bp' && stage == k[|bp| + 1..] == stage';
      }
    }
    if RunsOn(bp, stage, bp', stage') {
      RunsOnShares(bp, stage, bp', stage');
    }
    if RunsOn(bp', stage', bp, stage) {
      RunsOnShares(bp', stage', bp, stage);
    }
  }

  ghost predicate HoldsKey(s: State, id: Id, key: string) {
    id in s.tasks && exists i :: 0 <= i < |s.tasks[id].stages| && Key(s.tasks[id].bp, s.tasks[id].stages[i]) == key
  }

  lemma {:induction false} HolderLists(s: State, id: Id, key: string)
    requires id in s.tasks
    ensures HoldsKey(s, id, key) <==> key in Lists(s)[id]
  {
    var t := s.tasks[id];
    if HoldsKey(s, id, key) {
      var i :| 0 <= i < |t.stages| && Key(t.bp, t.stages[i]) == key;
      assert KeysOf(t.bp, t.stages)[i] == key;
    }
    if key in Lists(s)[id] {
      var i :| 0 <= i < |t.stages| && KeysOf(t.bp, t.stages)[i] == key;
    }
  }

  /** For all names: a stage is busy exactly when a live task lists a pair with its key. */
  lemma BusyMeansKey(es: seq<Event>, bp: string, stage: string)
    ensures Busy(After(es).s, bp, stage)
       <==> exists id :: id in After(es).live && HoldsKey(After(es).s, id, Key(bp, stage))
  {
    RunKeepsInv(es);
    var r, key := After(es), Key(bp, stage);
    hide After, Key, KeysOf, Lists, HoldsKey;
    forall id | id in r.live
      ensures HoldsKey(r.s, id, key) <==> key in Lists(r.s)[id]
    {
      HolderLists(r.s, id, key);
    }
  }
}
