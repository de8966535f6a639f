/** Deploying a set of members under one task, leaving out those already being deployed. */
module SetDeploy {
  import opened Locks
  import opened Options
  import opened Sequences
  import Deploys

  type Ids = seq<string>

  datatype Reason = NoMembers | AllInProgress | Conflicted

  datatype Result =
    | Spawned(task: Id, deployed: Ids, skipped: Ids, prune: bool)
    | Nothing(reason: Reason, skipped: Ids)

  function Busy(active: Table, ids: Ids): Ids {
    if ids == [] then []
    else Busy(active, ids[..|ids| - 1]) + if ids[|ids| - 1] in active then [ids[|ids| - 1]] else []
  }

  function Except(ids: Ids, out: Ids): Ids {
    if ids == [] then []
    else Except(ids[..|ids| - 1], out) + if ids[|ids| - 1] in out then [] else [ids[|ids| - 1]]
  }

  function HeldIn(active: Table): string -> bool {
    k => k in active
  }

  function NotIn(out: Ids): string -> bool {
    k => k !in out
  }

  lemma {:induction false} BusyPicks(active: Table, ids: Ids)
    ensures Picks(ids, Busy(active, ids), HeldIn(active))
  {
    if ids != [] {
      var init, last := ids[..|ids| - 1], ids[|ids| - 1];
      assert ids == init + [last];
      BusyPicks(active, init);
      PicksSnoc(init, Busy(active, init), HeldIn(active), last);
      assert Busy(active, ids) == if last in active then Busy(active, init) + [last] else Busy(active, init);
    }
  }

  lemma {:induction false} ExceptPicks(ids: Ids, out: Ids)
    ensures Picks(ids, Except(ids, out), NotIn(out))
  {
    if ids != [] {
      var init, last := ids[..|ids| - 1], ids[|ids| - 1];
      assert ids == init + [last];
      ExceptPicks(init, out);
      PicksSnoc(init, Except(init, out), NotIn(out), last);
      assert Except(ids, out) == if last in out then Except(init, out) else Except(init, out) + [last];
    }
  }

  /** Leaving out one more. */
  lemma ExceptOneMore(ids: Ids, out: Ids, candidates: Ids, conflict: string)
    requires Picks(ids, candidates, NotIn(out))
    ensures Picks(ids, Except(candidates, [conflict]), NotIn(out + [conflict]))
  {
    ExceptPicks(candidates, [conflict]);
    PicksTwice(ids, candidates, Except(candidates, [conflict]), NotIn(out), NotIn([conflict]), NotIn(out + [conflict]));
  }

  /** What the manager comes to when other coroutines do this. */
  ghost function Later(r: Deploys.Run, es: seq<Deploys.Event>): Deploys.Run
    decreases |es|
  {
    if es == [] then r else Later(Deploys.Next(r, es[0]), es[1..])
  }

  /** Other coroutines reserving, updating, releasing and cleaning up while this one waits. */
  method OthersRun(m: Deploys.Manager, es: seq<Deploys.Event>)
    requires Deploys.Backed(m.View())
    modifies m
    ensures Deploys.Backed(m.View()) && m.View() == Later(old(m.View()), es)
  {
    assert es[0..] == es;
    for i := 0 to |es|
      invariant Deploys.Backed(m.View())
      invariant Later(old(m.View()), es) == Later(m.View(), es[i..])
    {
      Deploys.StepKeepsBacked(m.View(), es[i]);
      assert es[i..][0] == es[i] && es[i..][1..] == es[i + 1..];
      hide Deploys.Next, Deploys.Backed;
      match es[i] {
        case Create(did, now) => var _ := m.CreateTask(did, now);
        case CreateBp(bp, ids, now) => var _ := m.CreateBpTask(bp, ids, now);
        case Update(id, status, message) => m.UpdateTask(id, status, message);
        case Release(id) => m.Release(id);
        case Cleanup(at, maxAge) => m.CleanupOldTasks(at, maxAge);
      }
    }
  }

  /** The ids of the new task hold its deployments, and nothing else is held by it. */
  ghost predicate HeldAlone(s: Deploys.State, task: Id, deployed: Ids) {
    && task in s.tasks && s.tasks[task].members == deployed
    && forall k :: (k in s.active && s.active[k] == task) <==> k in deployed
  }

  /** The first id that was free on entry and is held when the reservation is first tried. */
  ghost predicate FirstMet(ids: Ids, entry: Table, first: Table, x: string) {
    exists i :: && 0 <= i < |ids| && ids[i] == x && x !in entry && x in first
                && forall j :: 0 <= j < i ==> ids[j] in entry || ids[j] !in first
  }

  /** No id that was free on entry is held when the reservation is first tried. */
  ghost predicate NoneMet(ids: Ids, entry: Table, first: Table) {
    forall k :: k in ids ==> k in entry || k !in first
  }

  ghost predicate AllHeld(ids: Ids, entry: Table) {
    forall k :: k in ids ==> k in entry
  }

  /** All but this one were held on entry. */
  ghost predicate OnlyFree(ids: Ids, entry: Table, x: string) {
    forall k :: k in ids ==> k in entry || k == x
  }

  /** Another one that was free on entry is held when the reservation is tried again. */
  ghost predicate MetAgain(ids: Ids, entry: Table, second: Table, x: string, y: string) {
    y in ids && y !in entry && y != x && y in second
  }

  /** What comes back says why; entry, first and second are the locks on entry and at each try. */
  ghost predicate Justified(ids: Ids, entry: Table, first: Table, second: Table, r: Result, attempts: nat) {
    match r
    case Nothing(NoMembers, skipped) => ids == [] && skipped == [] && attempts == 0
    case Nothing(AllInProgress, skipped) =>
      && ids != []
      && if attempts == 0 then AllHeld(ids, entry) && Picks(ids, skipped, HeldIn(entry))
         else exists held, x :: && attempts == 1 && Picks(ids, held, HeldIn(entry)) && skipped == held + [x]
                                && FirstMet(ids, entry, first, x) && OnlyFree(ids, entry, x)
    case Nothing(Conflicted, skipped) =>
      exists held, x, y :: && attempts == 2 && Picks(ids, held, HeldIn(entry)) && skipped == held + [x] + [y]
                           && FirstMet(ids, entry, first, x) && MetAgain(ids, entry, second, x, y)
    case Spawned(_, deployed, skipped, _) =>
      && Picks(ids, deployed, NotIn(skipped)) && !AllHeld(ids, entry)
      && if attempts == 1 then Picks(ids, skipped, HeldIn(entry)) && NoneMet(ids, entry, first)
         else exists held, x :: && attempts == 2 && Picks(ids, held, HeldIn(entry)) && skipped == held + [x]
                                && FirstMet(ids, entry, first, x) && !OnlyFree(ids, entry, x)
                                && forall y :: !MetAgain(ids, entry, second, x, y)
  }

  /** The ids are divided between the two lists. */
  ghost predicate Divides(ids: Ids, chosen: Ids, skipped: Ids) {
    Names(chosen) !! Names(skipped) && Names(chosen) + Names(skipped) == Names(ids)
  }

  lemma Divided(ids: Ids, deployed: Ids, skipped: Ids)
    requires Picks(ids, deployed, NotIn(skipped)) && forall k :: k in skipped ==> k in ids
    ensures Divides(ids, deployed, skipped)
  {
    PicksMeans(ids, deployed, NotIn(skipped));
  }

  /** Whatever is skipped was held on entry, or when the try that named it was made. */
  lemma SkippedWereHeld(ids: Ids, entry: Table, first: Table, second: Table, r: Result, attempts: nat)
    requires Justified(ids, entry, first, second, r, attempts)
    ensures forall k :: k in r.skipped ==> k in ids && (k in entry || k in first || (attempts == 2 && k in second))
    ensures r.Nothing? && r.reason.AllInProgress? ==> forall k :: k in ids ==> k in r.skipped && (k in entry || k in first)
    ensures r.Spawned? ==> r.deployed != [] && Divides(ids, r.deployed, r.skipped)
    ensures r.Spawned? ==> forall k :: k in r.deployed ==> k !in entry && k !in if attempts == 1 then first else second
  {
    forall held | Picks(ids, held, HeldIn(entry))
      ensures forall k :: k in held <==> k in ids && k in entry
    {
      PicksMeans(ids, held, HeldIn(entry));
    }
    if r.Spawned? {
      PicksMeans(ids, r.deployed, NotIn(r.skipped));
      if attempts == 2 {
        var held, x :| Picks(ids, held, HeldIn(entry)) && r.skipped == held + [x] && FirstMet(ids, entry, first, x)
                       && !OnlyFree(ids, entry, x) && forall y :: !MetAgain(ids, entry, second, x, y);
        forall k | k in r.deployed
          ensures k !in entry && k !in second
        {
          assert k !in held && !MetAgain(ids, entry, second, x, k);
        }
        assert exists k :: k in ids && k !in entry && k != x;
      }
    }
  }

  /** When nobody else reserves in between, a set is deployed exactly when some id is free, and then exactly the free
      ones are, in order. */
  lemma Undisturbed(ids: Ids, entry: Table, second: Table, r: Result, attempts: nat)
    requires Justified(ids, entry, entry, second, r, attempts)
    ensures r.Spawned? <==> exists k :: k in ids && k !in entry
    ensures Picks(ids, r.skipped, HeldIn(entry))
    ensures r.Spawned? ==> attempts == 1 && Picks(ids, r.deployed, NotIn(r.skipped))
    ensures r.Spawned? ==> forall k :: k in r.deployed <==> k in ids && k !in entry
  {
    assert forall x :: !FirstMet(ids, entry, entry, x);
    PicksMeans(ids, r.skipped, HeldIn(entry));
    if r.Spawned? {
      PicksMeans(ids, r.deployed, NotIn(r.skipped));
    }
  }

  /**
   ids are the deployment ids of the members. The reservation is tried at most
   twice; before the first and the second try other coroutines do whatever they
   like.
   */
  method SpawnSetDeploy(m: Deploys.Manager, title: string, ids: Ids, pruneScope: bool, now: int,
                        beforeFirst: seq<Deploys.Event>, beforeSecond: seq<Deploys.Event>)
    returns (r: Result, attempts: nat)
    requires Deploys.Backed(m.View())
    modifies m
    ensures Deploys.Backed(m.View())
    ensures attempts <= 2
    ensures var start := old(m.View());
            var first := Later(start, beforeFirst);
            Justified(ids, start.s.active, first.s.active, Later(first, beforeSecond).s.active, r, attempts)
    ensures r.Spawned? ==>
              && Divides(ids, r.deployed, r.skipped)
              && r.deployed != []
              && HeldAlone(m.View().s, r.task, r.deployed)
              && (r.prune ==> pruneScope && r.skipped == [] && r.deployed == ids)
              && (pruneScope && r.skipped == [] ==> r.prune)
    ensures r.Nothing? ==>
              && Names(r.skipped) <= Names(ids)
              && (r.reason.NoMembers? <==> ids == [])
              && (r.reason.AllInProgress? ==> Names(r.skipped) == Names(ids))
              && (r.reason.Conflicted? ==> attempts == 2)
  {
    attempts := 0;
    hide Deploys.Backed, Picks, Later, HeldAlone, Except, Justified, Divides;
    ghost var start := m.View();
    ghost var entry, first := start.s.active, Later(start, beforeFirst);
    ghost var second := Later(first, beforeSecond);
    if |ids| == 0 {
      NothingAsked(entry, first.s.active, second.s.active);
      return Nothing(NoMembers, []), attempts;
    }
    var skipped := FilterBusy(m, ids);
    var candidates := Except(ids, skipped);
    if |candidates| == 0 {
      AllBusy(ids, entry, first.s.active, second.s.active, skipped);
      return Nothing(AllInProgress, skipped), attempts;
    }
    var chosen := candidates;
    OthersRun(m, beforeFirst);
    var created := TryReserve(m, title, chosen, now);
    attempts := 1;
    if created.Conflict? {
      var conflict := created.deploymentId;
      chosen := Except(candidates, [conflict]);
      if |chosen| == 0 {
        OneBusy(ids, entry, first.s.active, second.s.active, skipped, conflict);
        return Nothing(AllInProgress, skipped + [conflict]), attempts;
      }
      OthersRun(m, beforeSecond);
      created := TryReserve(m, title, chosen, now);
      attempts := 2;
      if created.Conflict? {
        MetTwice(ids, entry, first.s.active, second.s.active, skipped, conflict, created.deploymentId);
        return Nothing(Conflicted, skipped + [conflict] + [created.deploymentId]), attempts;
      }
      SecondTry(ids, entry, first.s.active, second.s.active, skipped, conflict, created.id);
      skipped := skipped + [conflict];
    } else {
      FirstTry(ids, entry, first.s.active, second.s.active, skipped, created.id, pruneScope && |skipped| == 0);
    }
    return Spawned(created.id, chosen, skipped, pruneScope && |skipped| == 0), attempts;
  }

  lemma NothingAsked(entry: Table, first: Table, second: Table)
    ensures Justified([], entry, first, second, Nothing(NoMembers, []), 0)
  {
  }

  lemma AllBusy(ids: Ids, entry: Table, first: Table, second: Table, skipped: Ids)
    requires ids != [] && Picks(ids, skipped, HeldIn(entry)) && Except(ids, skipped) == []
    ensures var r := Nothing(AllInProgress, skipped);
            Justified(ids, entry, first, second, r, 0) && Covered(ids, r)
  {
    hide Picks, Except, AllHeld;
    EntryDivides(ids, entry, skipped);
  }

  lemma OneBusy(ids: Ids, entry: Table, first: Table, second: Table, skipped: Ids, x: string)
    requires ids != [] && Picks(ids, skipped, HeldIn(entry)) && FirstHeld(first, Except(ids, skipped)) == Some(x)
    requires Except(Except(ids, skipped), [x]) == []
    ensures var r := Nothing(AllInProgress, skipped + [x]);
            Justified(ids, entry, first, second, r, 1) && Covered(ids, r)
  {
    hide Picks, Except, FirstMet, OnlyFree, FirstHeld;
    FirstConflict(ids, entry, first, skipped, x);
  }

  lemma FirstTry(ids: Ids, entry: Table, first: Table, second: Table, skipped: Ids, task: Id, prune: bool)
    requires Picks(ids, skipped, HeldIn(entry)) && Except(ids, skipped) != []
    requires forall k :: k in Except(ids, skipped) ==> k !in first
    ensures var r := Spawned(task, Except(ids, skipped), skipped, prune);
            Justified(ids, entry, first, second, r, 1) && Covered(ids, r)
  {
    hide Picks, Except, AllHeld;
    EntryDivides(ids, entry, skipped);
  }

  lemma SecondTry(ids: Ids, entry: Table, first: Table, second: Table, skipped: Ids, x: string, task: Id)
    requires Picks(ids, skipped, HeldIn(entry)) && FirstHeld(first, Except(ids, skipped)) == Some(x)
    requires Except(Except(ids, skipped), [x]) != []
    requires forall k :: k in Except(Except(ids, skipped), [x]) ==> k !in second
    ensures var r := Spawned(task, Except(Except(ids, skipped), [x]), skipped + [x], false);
            Justified(ids, entry, first, second, r, 2) && Covered(ids, r)
  {
    hide Picks, Except, FirstMet, FirstHeld;
    FirstConflict(ids, entry, first, skipped, x);
    assert exists k :: k in ids && k !in entry;
  }

  lemma MetTwice(ids: Ids, entry: Table, first: Table, second: Table, skipped: Ids, x: string, y: string)
    requires Picks(ids, skipped, HeldIn(entry)) && FirstHeld(first, Except(ids, skipped)) == Some(x)
    requires FirstHeld(second, Except(Except(ids, skipped), [x])) == Some(y)
    ensures var r := Nothing(Conflicted, skipped + [x] + [y]);
            Justified(ids, entry, first, second, r, 2) && Covered(ids, r)
  {
    hide Picks, Except, FirstMet, FirstHeld;
    FirstConflict(ids, entry, first, skipped, x);
    assert MetAgain(ids, entry, second, x, y);
    assert y in ids && Names(skipped + [x] + [y]) == Names(skipped + [x]) + {y};
  }

  /** The lists that come back are about the ids asked for. */
  ghost predicate Covered(ids: Ids, r: Result) {
    match r
    case Nothing(reason, skipped) =>
      Names(skipped) <= Names(ids) && (reason.AllInProgress? ==> Names(skipped) == Names(ids))
    case Spawned(_, deployed, skipped, _) =>
      Divides(ids, deployed, skipped) && deployed != [] && (skipped == [] ==> deployed == ids)
  }

  lemma EntryDivides(ids: Ids, entry: Table, skipped: Ids)
    requires Picks(ids, skipped, HeldIn(entry))
    ensures var candidates := Except(ids, skipped);
            && Picks(ids, candidates, NotIn(skipped)) && Divides(ids, candidates, skipped)
            && (forall k :: k in skipped <==> k in ids && k in entry)
            && (forall k :: k in candidates <==> k in ids && k !in entry)
            && (candidates == [] <==> AllHeld(ids, entry))
            && (candidates == [] ==> Names(skipped) == Names(ids))
            && (skipped == [] ==> candidates == ids)
  {
    hide Picks;
    var candidates := Except(ids, skipped);
    PicksMeans(ids, skipped, HeldIn(entry));
    ExceptPicks(ids, skipped);
    PicksMeans(ids, candidates, NotIn(skipped));
    Divided(ids, candidates, skipped);
    if candidates != [] {
      assert candidates[0] in candidates;
    }
    if !AllHeld(ids, entry) {
      var k :| k in ids && k !in entry;
      assert k in candidates;
    }
    if skipped == [] {
      ExceptNone(ids);
    }
  }

  lemma {:induction false} ExceptNone(ids: Ids)
    ensures Except(ids, []) == ids
  {
    if ids != [] {
      ExceptNone(ids[..|ids| - 1]);
      assert ids == ids[..|ids| - 1] + [ids[|ids| - 1]];
    }
  }

  lemma FirstConflict(ids: Ids, entry: Table, first: Table, skipped: Ids, conflict: string)
    requires Picks(ids, skipped, HeldIn(entry))
    requires FirstHeld(first, Except(ids, skipped)) == Some(conflict)
    ensures var chosen, all := Except(Except(ids, skipped), [conflict]), skipped + [conflict];
            && FirstMet(ids, entry, first, conflict)
            && Picks(ids, chosen, NotIn(all)) && Divides(ids, chosen, all)
            && (forall k :: k in chosen <==> k in ids && k !in entry && k != conflict)
            && (chosen == [] <==> OnlyFree(ids, entry, conflict))
            && Names(all) <= Names(ids) && (chosen == [] ==> Names(all) == Names(ids))
  {
    hide Picks, FirstMet;
    EntryDivides(ids, entry, skipped);
    var candidates := Except(ids, skipped);
    var chosen, all := Except(candidates, [conflict]), skipped + [conflict];
    ExceptOneMore(ids, skipped, candidates, conflict);
    PicksMeans(ids, chosen, NotIn(all));
    Divided(ids, chosen, all);
    FirstHeldIsFirst(first, candidates, conflict);
    FirstOfCandidates(ids, entry, first, candidates, NotIn(skipped), conflict);
    if chosen != [] {
      assert chosen[0] in chosen;
    }
    if !OnlyFree(ids, entry, conflict) {
      var k :| k in ids && k !in entry && k != conflict;
      assert k in chosen;
    }
  }

  /** The first of the picked ones that is held is the first of all of them that is. */
  lemma {:induction false} FirstOfCandidates(ids: Ids, entry: Table, first: Table, candidates: Ids,
                                             keep: string -> bool, x: string)
    requires Picks(ids, candidates, keep) && forall k :: k in ids ==> (keep(k) <==> k !in entry)
    requires exists i :: 0 <= i < |candidates| && candidates[i] == x && forall j :: 0 <= j < i ==> candidates[j] !in first
    requires x in first
    ensures FirstMet(ids, entry, first, x)
    decreases |ids|
  {
    assert ids[0] in ids;
    var tail := ids[1..];
    assert forall k :: k in tail ==> k in ids;
    var i :| 0 <= i < |candidates| && candidates[i] == x && forall j :: 0 <= j < i ==> candidates[j] !in first;
    if keep(ids[0]) && i == 0 {
      assert ids[0] == x;
    } else {
      if keep(ids[0]) {
        assert candidates[1..][i - 1] == x;
        assert forall j :: 0 <= j < i - 1 ==> candidates[1..][j] == candidates[j + 1];
        assert candidates[0] !in first;
        FirstOfCandidates(tail, entry, first, candidates[1..], keep, x);
      } else {
        FirstOfCandidates(tail, entry, first, candidates, keep, x);
      }
      var k :| 0 <= k < |tail| && tail[k] == x && x !in entry
               && forall j :: 0 <= j < k ==> tail[j] in entry || tail[j] !in first;
      assert ids[k + 1] == x;
      assert forall j :: 0 < j < k + 1 ==> ids[j] == tail[j - 1];
    }
  }

  method FilterBusy(m: Deploys.Manager, ids: Ids) returns (skipped: Ids)
    ensures Picks(ids, skipped, HeldIn(m.active))
  {
    skipped := [];
    for i := 0 to |ids|
      invariant skipped == Busy(m.active, ids[..i])
    {
      assert ids[..i + 1][..i] == ids[..i];
      if m.IsDeploying(ids[i]) {
        skipped := skipped + [ids[i]];
      }
    }
    assert ids[..|ids|] == ids;
    BusyPicks(m.active, ids);
  }

  method TryReserve(m: Deploys.Manager, title: string, ids: Ids, now: int) returns (r: Deploys.Created)
    requires Deploys.Backed(m.View()) && ids != []
    modifies m
    ensures Deploys.Backed(m.View())
    ensures r.Reserved? ==> HeldAlone(m.View().s, r.id, ids) && forall k :: k in ids ==> k !in old(m.active)
    ensures r.Conflict? ==> FirstHeld(old(m.active), ids) == Some(r.deploymentId) && m.View() == old(m.View())
  {
    Deploys.StepKeepsBacked(m.View(), Deploys.CreateBp(title, ids, now));
    r := m.CreateBpTask(title, ids, now);
  }
}
