/** Copies marked as changed and the task that refreshes them, one stretch between two awaits at a time. */
module Drain {
  import opened Options

  type Copy = string

  /** Where a drain task is suspended; Refreshing names the copy in progress and those still to come. */
  datatype Phase =
    | Created
    | Sleeping
    | Rescanning
    | Refreshing(name: Copy, rest: seq<Copy>)
    | Done

  /** None among the dirty copies asks for a full rescan; task is the handle the marks look at. */
  datatype State = State(dirty: set<Option<Copy>>, task: Option<nat>, tasks: seq<Phase>)

  const START: State := State({}, None, [])

  predicate Live(s: State) {
    s.task.Some? && s.task.value < |s.tasks| && s.tasks[s.task.value] != Done
  }

  function AfterMark(s: State, copy: Option<Copy>): State {
    var t := s.(dirty := s.dirty + {copy});
    if Live(s) then t else t.(task := Some(|s.tasks|), tasks := s.tasks + [Created])
  }

  /** The head of the while loop. */
  function AtLoop(s: State, i: nat): State
    requires i < |s.tasks|
  {
    s.(tasks := s.tasks[i := if s.dirty == {} then Done else Sleeping])
  }

  /** The head of the loop over the names. */
  function AtNames(s: State, i: nat, names: seq<Copy>): State
    requires i < |s.tasks|
  {
    if names == [] then AtLoop(s, i) else s.(tasks := s.tasks[i := Refreshing(names[0], names[1..])])
  }

  /** Task i runs to its next await; order is how the dirty copies are gone through if it takes them. */
  function AfterResume(s: State, i: nat, order: seq<Copy>): State
    requires i < |s.tasks|
  {
    match s.tasks[i]
    case Created => AtLoop(s, i)
    case Sleeping =>
      var t := s.(dirty := {});
      if None in s.dirty then t.(tasks := s.tasks[i := Rescanning]) else AtNames(t, i, order)
    case Rescanning => AtLoop(s, i)
    case Refreshing(_, rest) => AtNames(s, i, rest)
    case Done => s
  }

  ghost predicate Orders(order: seq<Copy>, dirty: set<Option<Copy>>) {
    forall c: Copy :: c in order <==> Some(c) in dirty
  }

  datatype Event = Mark(copy: Option<Copy>) | Resume(task: nat, order: seq<Copy>) | Wait

  ghost predicate Next(s: State, e: Event, t: State) {
    match e
    case Mark(copy) => t == AfterMark(s, copy)
    case Resume(i, order) =>
      i < |s.tasks| && s.tasks[i] != Done && Orders(order, s.dirty) && t == AfterResume(s, i, order)
    case Wait => t == s
  }

  /** The refresh of a copy, or of all of them, that begins in a step. */
  ghost predicate Starts(e: Event, t: State, copy: Option<Copy>) {
    && e.Resume?
    && e.task < |t.tasks|
    && (t.tasks[e.task] == Rescanning || (t.tasks[e.task].Refreshing? && copy == Some(t.tasks[e.task].name)))
  }

  // -------------------------------------------------------------- the handler

  class CopyChangeHandler {
    var copiesDirty: set<Option<Copy>>
    var copyPingTask: Option<nat>
    /** The drain tasks the event loop was given, oldest first. */
    var tasks: seq<Phase>

    ghost function View(): State
      reads this
    {
      State(copiesDirty, copyPingTask, tasks)
    }

    constructor ()
      ensures View() == START
    {
      copiesDirty, copyPingTask, tasks := {}, None, [];
    }

    method ScheduleCopiesPing(copy: Option<Copy>)
      modifies this
      ensures View() == AfterMark(old(View()), copy)
    {
      copiesDirty := copiesDirty + {copy};
      if copyPingTask.Some? && copyPingTask.value < |tasks| && tasks[copyPingTask.value] != Done {
        return;
      }
      tasks := tasks + [Created];
      copyPingTask := Some(|tasks| - 1);
    }

    /** One stretch of _drain_copies_dirty. */
    method DrainCopiesDirty(i: nat) returns (ghost order: seq<Copy>)
      requires i < |tasks| && tasks[i] != Done
      modifies this
      ensures Next(old(View()), Resume(i, order), View())
    {
      order := Ordered(copiesDirty);
      match tasks[i]
      case Sleeping =>
        var pending := copiesDirty;
        copiesDirty := {};
        if None in pending {
          tasks := tasks[i := Rescanning];
        } else {
          var names := Listed(pending);
          order := names;
          RefreshNext(i, names);
        }
      case Refreshing(_, rest) =>
        RefreshNext(i, rest);
      case Created =>
        CheckDirty(i);
      case Rescanning =>
        CheckDirty(i);
    }

    method RefreshNext(i: nat, names: seq<Copy>)
      requires i < |tasks|
      modifies this
      ensures View() == AtNames(old(View()), i, names)
    {
      if names != [] {
        tasks := tasks[i := Refreshing(names[0], names[1..])];
      } else {
        CheckDirty(i);
      }
    }

    method CheckDirty(i: nat)
      requires i < |tasks|
      modifies this
      ensures View() == AtLoop(old(View()), i)
    {
      if copiesDirty == {} {
        tasks := tasks[i := Done];
      } else {
        tasks := tasks[i := Sleeping];
      }
    }
  }

  /** Some order of the names; the proofs hold for every one of them. */
  method Listed(pending: set<Option<Copy>>) returns (names: seq<Copy>)
    ensures Orders(names, pending)
  {
    names := [];
    var left := pending;
    while left != {}
      invariant left <= pending
      invariant forall c: Copy :: c in names <==> Some(c) in pending - left
      decreases left
    {
      var c :| c in left;
      left := left - {c};
      if c.Some? {
        names := names + [c.value];
      }
    }
  }

  ghost function Ordered(dirty: set<Option<Copy>>): (order: seq<Copy>)
    ensures Orders(order, dirty)
  {
    if dirty == {} then []
    else
      var c :| c in dirty;
      var rest := Ordered(dirty - {c});
      if c.Some? then [c.value] + rest else rest
  }

  // ---------------------------------------------------------------- invariants

  /** Nothing is dirty without a live drain, and only the task of the handle can be live. */
  ghost predicate Inv(s: State) {
    && (s.task.Some? ==> s.task.value < |s.tasks|)
    && (forall i :: 0 <= i < |s.tasks| && s.tasks[i] != Done ==> s.task == Some(i))
    && (s.dirty != {} ==> Live(s))
  }

  lemma StepKeepsInv(s: State, e: Event, t: State)
    requires Inv(s) && Next(s, e, t)
    ensures Inv(t)
  {
  }

  /** A behaviour of the handler: a first state and, for every moment, what happens then. */
  ghost predicate Behaviour(b: nat -> State, e: nat -> Event) {
    && b(0) == START
    && forall n: nat :: Next(b(n), e(n), b(n + 1))
  }

  /** A live drain is resumed sooner or later: every sleep and every refresh ends. */
  ghost predicate Fair(b: nat -> State, e: nat -> Event) {
    forall n: nat :: Live(b(n)) ==> exists m: nat :: n <= m && e(m).Resume?
  }

  lemma {:induction false} InvAlways(b: nat -> State, e: nat -> Event, n: nat)
    requires Behaviour(b, e)
    ensures Inv(b(n))
  {
    if n > 0 {
      InvAlways(b, e, n - 1);
      assert Next(b(n - 1), e(n - 1), b(n - 1 + 1));
      StepKeepsInv(b(n - 1), e(n - 1), b(n));
    }
  }

  /** There is never more than one drain, and what is dirty has one. */
  lemma OneDrain(b: nat -> State, e: nat -> Event, n: nat)
    requires Behaviour(b, e)
    ensures b(n).dirty != {} ==> Live(b(n))
    ensures forall i, j ::
      0 <= i < j < |b(n).tasks| ==> b(n).tasks[i] == Done || b(n).tasks[j] == Done
  {
    InvAlways(b, e, n);
  }

  // ------------------------------------------------------------- no lost refresh

  /** The copy is due: the live drain has yet to take it or to come to it. */
  ghost predicate InRest(s: State, copy: Option<Copy>) {
    && Live(s)
    && s.tasks[s.task.value].Refreshing?
    && copy.Some?
    && copy.value in s.tasks[s.task.value].rest
  }

  ghost predicate Owes(s: State, copy: Option<Copy>) {
    Live(s) && (copy in s.dirty || InRest(s, copy))
  }

  function IndexOf(names: seq<Copy>, c: Copy): (i: nat)
    requires c in names
    ensures i < |names| && names[i] == c
  {
    if names[0] == c then 0 else 1 + IndexOf(names[1..], c)
  }

  ghost function Round(s: State, copy: Option<Copy>): nat {
    if InRest(s, copy) then 0 else 1
  }

  /** How many stretches are left before the copy's refresh starts, or before the drain takes what is dirty. */
  ghost function Distance(s: State, copy: Option<Copy>): nat
    requires Live(s)
  {
    var phase := s.tasks[s.task.value];
    if InRest(s, copy) then IndexOf(phase.rest, copy.value)
    else if phase.Sleeping? then 0
    else if phase.Refreshing? then 1 + |phase.rest|
    else 1
  }

  ghost predicate Closer(s: State, t: State, copy: Option<Copy>)
    requires Live(s) && Live(t)
  {
    || Round(t, copy) < Round(s, copy)
    || (Round(t, copy) == Round(s, copy) && Distance(t, copy) < Distance(s, copy))
  }

  lemma ResumeServes(s: State, e: Event, t: State, copy: Option<Copy>)
    requires Inv(s) && Next(s, e, t) && e.Resume? && Owes(s, copy)
    ensures Starts(e, t, copy) || (Owes(t, copy) && Closer(s, t, copy))
  {
    var i := e.task;
    assert s.task == Some(i);
    match s.tasks[i]
    case Sleeping =>
      if None !in s.dirty {
        assert copy.Some? && copy.value in e.order;
      }
    case Refreshing(_, rest) =>
      if InRest(s, copy) && rest[0] != copy.value {
        assert copy.value in rest[1..];
      }
    case _ =>
  }

  lemma OtherStepsWait(s: State, e: Event, t: State, copy: Option<Copy>)
    requires Inv(s) && Next(s, e, t) && !e.Resume? && Owes(s, copy)
    ensures Owes(t, copy) && Round(t, copy) == Round(s, copy) && Distance(t, copy) == Distance(s, copy)
  {
  }

  lemma {:induction false} ServedBy(b: nat -> State, e: nat -> Event, copy: Option<Copy>, n: nat, next: nat)
      returns (m: nat)
    requires Behaviour(b, e) && Fair(b, e) && Owes(b(n), copy)
    requires n <= next && e(next).Resume?
    ensures n <= m && Starts(e(m), b(m + 1), copy)
    decreases Round(b(n), copy), Distance(b(n), copy), next - n
  {
    InvAlways(b, e, n);
    assert Next(b(n), e(n), b(n + 1));
    if e(n).Resume? {
      ResumeServes(b(n), e(n), b(n + 1), copy);
      if Starts(e(n), b(n + 1), copy) {
        m := n;
      } else {
        var later: nat :| n + 1 <= later && e(later).Resume?;
        m := ServedBy(b, e, copy, n + 1, later);
      }
    } else {
      OtherStepsWait(b(n), e(n), b(n + 1), copy);
      m := ServedBy(b, e, copy, n + 1, next);
    }
  }

  /** Every mark, whenever it comes, is followed by a refresh of that copy or a full rescan that starts after it. */
  lemma NoLostRefresh(b: nat -> State, e: nat -> Event, n: nat)
    requires Behaviour(b, e) && Fair(b, e) && e(n).Mark?
    ensures exists m: nat :: n < m && Starts(e(m), b(m + 1), e(n).copy)
  {
    InvAlways(b, e, n);
    assert Next(b(n), e(n), b(n + 1));
    var next: nat :| n + 1 <= next && e(next).Resume?;
    var m := ServedBy(b, e, e(n).copy, n + 1, next);
  }

  // --------------------------------------------------------- nothing unasked

  /** What is refreshed or still to be refreshed was marked before. */
  ghost predicate Asked(e: nat -> Event, n: nat, copy: Option<Copy>) {
    exists m: nat :: m < n && e(m) == Mark(copy)
  }

  ghost predicate AllAsked(s: State, e: nat -> Event, n: nat) {
    && (forall copy :: copy in s.dirty ==> Asked(e, n, copy))
    && (forall i :: 0 <= i < |s.tasks| && s.tasks[i] == Rescanning ==> Asked(e, n, None))
    && (forall i, c :: 0 <= i < |s.tasks| && s.tasks[i].Refreshing? && (c == s.tasks[i].name || c in s.tasks[i].rest)
                       ==> Asked(e, n, Some(c)))
  }

  lemma AskedLater(e: nat -> Event, n: nat)
    ensures forall copy :: Asked(e, n, copy) ==> Asked(e, n + 1, copy)
    ensures e(n).Mark? ==> Asked(e, n + 1, e(n).copy)
  {
    forall copy | Asked(e, n, copy)
      ensures Asked(e, n + 1, copy)
    {
      var m: nat :| m < n && e(m) == Mark(copy);
      assert m < n + 1;
    }
    if e(n).Mark? {
      assert e(n) == Mark(e(n).copy);
    }
  }

  lemma StepAsks(s: State, e: nat -> Event, n: nat, t: State)
    requires Inv(s) && AllAsked(s, e, n) && Next(s, e(n), t)
    ensures AllAsked(t, e, n + 1)
  {
    AskedLater(e, n);
    hide Asked;
    match e(n)
    case Resume(i, order) =>
      OrderHead(order, s.dirty);
      assert forall c :: c in order ==> Some(c) in s.dirty;
    case _ =>
  }

  lemma {:induction false} AlwaysAsked(b: nat -> State, e: nat -> Event, n: nat)
    requires Behaviour(b, e)
    ensures AllAsked(b(n), e, n)
  {
    if n > 0 {
      AlwaysAsked(b, e, n - 1);
      InvAlways(b, e, n - 1);
      assert Next(b(n - 1), e(n - 1), b(n - 1 + 1));
      StepAsks(b(n - 1), e, n - 1, b(n));
    }
  }

  /** A copy is refreshed only if it was marked before, and everything rescanned only if that was asked for: marks of
      named copies alone refresh those copies alone. */
  lemma NothingUnasked(b: nat -> State, e: nat -> Event, n: nat)
    requires Behaviour(b, e)
    ensures forall i :: 0 <= i < |b(n).tasks| && b(n).tasks[i] == Rescanning ==> Asked(e, n, None)
    ensures forall i :: 0 <= i < |b(n).tasks| && b(n).tasks[i].Refreshing? ==> Asked(e, n, Some(b(n).tasks[i].name))
  {
    AlwaysAsked(b, e, n);
  }

  // ------------------------------------------------------------------ no livelock

  /** What is left to do once no more marks come. */
  ghost function Left(s: State): nat {
    if !Live(s) then 0
    else if s.tasks[s.task.value].Refreshing? then 1 + |s.tasks[s.task.value].rest|
    else 1
  }

  ghost function Rounds(s: State): nat {
    if s.dirty == {} then 0 else if Live(s) && s.tasks[s.task.value].Sleeping? then 1 else 2
  }

  lemma ResumeEnds(s: State, e: Event, t: State)
    requires Inv(s) && Next(s, e, t) && e.Resume?
    ensures Rounds(t) < Rounds(s) || (Rounds(t) == Rounds(s) && Left(t) < Left(s))
  {
    assert s.task == Some(e.task);
    OrderHead(e.order, s.dirty);
  }

  lemma OrderHead(order: seq<Copy>, dirty: set<Option<Copy>>)
    requires Orders(order, dirty)
    ensures order != [] ==> Some(order[0]) in dirty
  {
    if order != [] {
      assert order[0] in order;
    }
  }

  lemma {:induction false} EndsBy(b: nat -> State, e: nat -> Event, n: nat, next: nat) returns (m: nat)
    requires Behaviour(b, e) && Fair(b, e)
    requires forall k: nat :: n <= k ==> !e(k).Mark?
    requires Live(b(n)) ==> n <= next && e(next).Resume?
    ensures n <= m && b(m).dirty == {} && forall i :: 0 <= i < |b(m).tasks| ==> b(m).tasks[i] == Done
    decreases Rounds(b(n)), Left(b(n)), next - n
  {
    InvAlways(b, e, n);
    assert Next(b(n), e(n), b(n + 1));
    if !Live(b(n)) {
      m := n;
    } else if e(n).Resume? {
      ResumeEnds(b(n), e(n), b(n + 1));
      var later: nat := 0;
      if Live(b(n + 1)) {
        later :| n + 1 <= later && e(later).Resume?;
      }
      m := EndsBy(b, e, n + 1, later);
    } else {
      m := EndsBy(b, e, n + 1, next);
    }
  }

  /** When the marks stop, the drain ends, with nothing dirty. */
  lemma DrainEnds(b: nat -> State, e: nat -> Event, n: nat)
    requires Behaviour(b, e) && Fair(b, e)
    requires forall k: nat :: n <= k ==> !e(k).Mark?
    ensures exists m: nat :: n <= m && b(m).dirty == {}
                             && forall i :: 0 <= i < |b(m).tasks| ==> b(m).tasks[i] == Done
  {
    var next: nat := 0;
    if Live(b(n)) {
      next :| n <= next && e(next).Resume?;
    }
    var m := EndsBy(b, e, n, next);
  }
}
