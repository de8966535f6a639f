/** The scheduler with one flag, which the drain of the copies replaced: it loses what comes while it broadcasts. */
module Debounce {
  /** An update task is asleep, or has begun to refresh and is not through broadcasting, or is over. */
  datatype Phase = Sleeping | Broadcasting | Done

  datatype State = State(scheduled: bool, tasks: seq<Phase>)

  const START: State := State(false, [])

  function AfterNotice(s: State): State {
    if s.scheduled then s else State(true, s.tasks + [Sleeping])
  }

  /** The sleep ends and the refresh begins, which takes account of everything noticed so far. */
  function AfterWake(s: State, i: nat): State
    requires i < |s.tasks|
  {
    s.(tasks := s.tasks[i := Broadcasting])
  }

  /** The finally block; an exception on the way ends here as well. */
  function AfterFinish(s: State, i: nat): State
    requires i < |s.tasks|
  {
    State(false, s.tasks[i := Done])
  }

  datatype Event = Notice | Wake(task: nat) | Finish(task: nat) | Wait

  ghost predicate Next(s: State, e: Event, t: State) {
    match e
    case Notice => t == AfterNotice(s)
    case Wake(i) => i < |s.tasks| && s.tasks[i] == Sleeping && t == AfterWake(s, i)
    case Finish(i) => i < |s.tasks| && s.tasks[i] == Broadcasting && t == AfterFinish(s, i)
    case Wait => t == s
  }

  class WorkspaceChangeHandler {
    var updateScheduled: bool
    /** The update tasks the event loop was given, oldest first. */
    var tasks: seq<Phase>

    ghost function View(): State
      reads this
    {
      State(updateScheduled, tasks)
    }

    constructor ()
      ensures View() == START
    {
      updateScheduled, tasks := false, [];
    }

    method ScheduleUpdate()
      modifies this
      ensures View() == AfterNotice(old(View()))
    {
      if updateScheduled {
        return;
      }
      updateScheduled := true;
      tasks := tasks + [Sleeping];
    }

    /** One stretch of delayed_update. */
    method DelayedUpdate(i: nat)
      requires i < |tasks| && tasks[i] != Done
      modifies this
      ensures Next(old(View()), if old(tasks[i]) == Sleeping then Wake(i) else Finish(i), View())
    {
      if tasks[i] == Sleeping {
        tasks := tasks[i := Broadcasting];
      } else {
        tasks := tasks[i := Done];
        updateScheduled := false;
      }
    }
  }

  ghost predicate Behaviour(b: nat -> State, e: nat -> Event) {
    && b(0) == START
    && forall n: nat :: Next(b(n), e(n), b(n + 1))
  }

  /** The last task is the only one that can be running, and it runs exactly while the flag is up. */
  ghost predicate Inv(s: State) {
    && (forall i :: 0 <= i < |s.tasks| - 1 ==> s.tasks[i] == Done)
    && (s.scheduled <==> |s.tasks| > 0 && s.tasks[|s.tasks| - 1] != Done)
  }

  lemma {:induction false} InvAlways(b: nat -> State, e: nat -> Event, n: nat)
    requires Behaviour(b, e)
    ensures Inv(b(n))
  {
    if n > 0 {
      InvAlways(b, e, n - 1);
      assert Next(b(n - 1), e(n - 1), b(n - 1 + 1));
    }
  }

  ghost predicate Busy(s: State) {
    s.scheduled && |s.tasks| > 0 && s.tasks[|s.tasks| - 1] == Broadcasting
  }

  /** A sleep ends sooner or later. */
  ghost predicate Fair(b: nat -> State, e: nat -> Event) {
    forall n: nat :: b(n).scheduled && !Busy(b(n)) ==> exists m: nat :: n <= m && !e(m).Notice? && !e(m).Wait?
  }

  lemma {:induction false} WokenBy(b: nat -> State, e: nat -> Event, n: nat, next: nat) returns (m: nat)
    requires Behaviour(b, e) && b(n).scheduled && !Busy(b(n))
    requires n <= next && !e(next).Notice? && !e(next).Wait?
    ensures n <= m && e(m).Wake?
    decreases next - n
  {
    InvAlways(b, e, n);
    assert Next(b(n), e(n), b(n + 1));
    if e(n).Wake? {
      m := n;
    } else {
      m := WokenBy(b, e, n + 1, next);
    }
  }

  lemma {:induction false} NeverAgain(b: nat -> State, e: nat -> Event, n: nat, m: nat)
    requires Behaviour(b, e) && n <= m
    requires forall k: nat :: n <= k ==> e(k) != Notice
    requires !b(n).scheduled || Busy(b(n))
    ensures !b(m).scheduled || Busy(b(m))
    ensures !e(m).Wake?
  {
    if n < m {
      NeverAgain(b, e, n, m - 1);
      assert Next(b(m - 1), e(m - 1), b(m - 1 + 1));
      InvAlways(b, e, m - 1);
    }
    InvAlways(b, e, m);
    assert Next(b(m), e(m), b(m + 1));
  }

  /** A notice that does not fall into a broadcast is followed by a refresh that starts after it. */
  lemma NoticeServed(b: nat -> State, e: nat -> Event, n: nat)
    requires Behaviour(b, e) && Fair(b, e)
    requires e(n) == Notice && !Busy(b(n))
    ensures exists m: nat :: n < m && e(m).Wake?
  {
    InvAlways(b, e, n);
    assert Next(b(n), e(n), b(n + 1));
    var next: nat :| n + 1 <= next && !e(next).Notice? && !e(next).Wait?;
    var m := WokenBy(b, e, n + 1, next);
  }

  /** The last notice is followed by a refresh exactly when it does not fall into a broadcast. */
  lemma LastNotice(b: nat -> State, e: nat -> Event, n: nat)
    requires Behaviour(b, e) && Fair(b, e)
    requires e(n) == Notice && forall k: nat :: n < k ==> e(k) != Notice
    ensures (exists m: nat :: n < m && e(m).Wake?) <==> !Busy(b(n))
  {
    InvAlways(b, e, n);
    assert Next(b(n), e(n), b(n + 1));
    if Busy(b(n)) {
      forall m: nat | n < m
        ensures !e(m).Wake?
      {
        NeverAgain(b, e, n + 1, m);
      }
    } else {
      NoticeServed(b, e, n);
    }
  }

  /** A notice, the refresh it asks for, another notice during the broadcast, the end of the broadcast, and rest. */
  function LosingState(n: nat): State {
    if n == 0 then START
    else if n == 1 then State(true, [Sleeping])
    else if n <= 3 then State(true, [Broadcasting])
    else State(false, [Done])
  }

  function LosingEvent(n: nat): Event {
    if n == 0 then Notice
    else if n == 1 then Wake(0)
    else if n == 2 then Notice
    else if n == 3 then Finish(0)
    else Wait
  }

  /** That is a fair behaviour, in which no refresh follows the second notice. */
  lemma NoticeLost()
    ensures Behaviour(LosingState, LosingEvent) && Fair(LosingState, LosingEvent)
    ensures LosingEvent(2) == Notice && Busy(LosingState(2))
    ensures forall m: nat :: 2 < m ==> !LosingEvent(m).Wake?
    ensures forall m: nat :: 3 < m ==> LosingState(m) == State(false, [Done])
  {
    assert [Sleeping][0 := Broadcasting] == [Broadcasting];
    assert [Broadcasting][0 := Done] == [Done];
    forall n: nat
      ensures Next(LosingState(n), LosingEvent(n), LosingState(n + 1))
    {
    }
    forall n: nat | LosingState(n).scheduled && !Busy(LosingState(n))
      ensures exists m: nat :: n <= m && !LosingEvent(m).Notice? && !LosingEvent(m).Wait?
    {
      assert n == 1 && LosingEvent(1).Wake?;
    }
  }
}
