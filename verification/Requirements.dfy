/** The search for the requirement to work on next: the deepest one that does not pass yet. */
module Requirements {
  import opened Options

  datatype Requirement = Requirement(
    id: string, description: string, status: string, parent: string,
    origin: string, automation: string, runner: string, framework: string)

  type Path = seq<Requirement>

  predicate Passes(r: Requirement) {
    r.status == "pass"
  }

  ghost predicate UniqueIds(reqs: seq<Requirement>) {
    && (forall i :: 0 <= i < |reqs| ==> reqs[i].id != "")
    && (forall i, j :: 0 <= i < j < |reqs| ==> reqs[i].id != reqs[j].id)
  }

  // ------------------------------------------------- what the search is for

  ghost predicate Linked(p: Path) {
    && (p != [] ==> p[0].parent == "")
    && forall k :: 0 < k < |p| ==> p[k].parent == p[k - 1].id
  }

  /** A chain of requirements from a root down, each the parent of the next. */
  ghost predicate Chain(reqs: seq<Requirement>, p: Path) {
    (forall k :: 0 <= k < |p| ==> p[k] in reqs) && Linked(p)
  }

  ghost predicate RootPath(reqs: seq<Requirement>, p: Path) {
    p != [] && Chain(reqs, p)
  }

  ghost predicate Earlier(reqs: seq<Requirement>, a: Requirement, b: Requirement) {
    exists i, j :: 0 <= i < j < |reqs| && reqs[i] == a && reqs[j] == b
  }

  /** p and q part at position k, p going to the requirement that is listed first. */
  ghost predicate PartsEarlier(reqs: seq<Requirement>, p: Path, q: Path, k: nat) {
    k < |p| && k < |q| && p[..k] == q[..k] && Earlier(reqs, p[k], q[k])
  }

  /** Post-order: descendants come before ancestors, and siblings in the order they are listed. */
  ghost predicate Before(reqs: seq<Requirement>, p: Path, q: Path) {
    q < p || exists k: nat :: PartsEarlier(reqs, p, q, k)
  }

  function LastOf(p: Path): Requirement
    requires p != []
  {
    p[|p| - 1]
  }

  /** p leads to the first requirement in post-order that does not pass. */
  ghost predicate FirstFailing(reqs: seq<Requirement>, p: Path) {
    && RootPath(reqs, p) && LastOf(p).status != "pass"
    && forall q :: RootPath(reqs, q) && Before(reqs, q, p) ==> LastOf(q).status == "pass"
  }

  // -------------------------------------------------------- chains are short

  lemma {:induction false} ChainShift(reqs: seq<Requirement>, p: Path, i: nat, j: nat)
    requires UniqueIds(reqs) && Chain(reqs, p) && i <= j < |p| && p[i] == p[j]
    ensures p[0] == p[j - i]
  {
    if i > 0 {
      var a, b :| 0 <= a < |reqs| && 0 <= b < |reqs| && reqs[a] == p[i - 1] && reqs[b] == p[j - 1];
      assert p[i].parent == p[i - 1].id && p[j].parent == p[j - 1].id;
      assert a == b;
      ChainShift(reqs, p, i - 1, j - 1);
    }
  }

  /** A cycle of parents is never reached from a root: no requirement occurs twice on a chain. */
  lemma {:induction false} ChainDistinct(reqs: seq<Requirement>, p: Path)
    requires UniqueIds(reqs) && Chain(reqs, p)
    ensures forall i, j :: 0 <= i < j < |p| ==> p[i] != p[j]
  {
    forall i, j | 0 <= i < j < |p| ensures p[i] != p[j] {
      assert p[j - i].parent == p[j - i - 1].id;
      var a :| 0 <= a < |reqs| && reqs[a] == p[j - i - 1];
      assert p[0].parent == "" && p[j - i] != p[0];
      if p[i] == p[j] {
        ChainShift(reqs, p, i, j);
      }
    }
  }

  lemma {:induction false} DistinctSize<T(!new)>(p: seq<T>)
    requires forall i, j :: 0 <= i < j < |p| ==> p[i] != p[j]
    ensures |set r | r in p| == |p|
  {
    if p != [] {
      var init, last := p[..|p| - 1], p[|p| - 1];
      DistinctSize(init);
      assert p == init + [last];
      assert (set r | r in p) == (set r | r in init) + {last};
      assert last !in init;
    }
  }

  lemma {:induction false} ElementsAtMost<T(!new)>(p: seq<T>)
    ensures |set r | r in p| <= |p|
  {
    if p != [] {
      var init, last := p[..|p| - 1], p[|p| - 1];
      ElementsAtMost(init);
      assert p == init + [last];
      assert (set r | r in p) == (set r | r in init) + {last};
    }
  }

  lemma {:induction false} ChainShort(reqs: seq<Requirement>, p: Path)
    requires UniqueIds(reqs) && Chain(reqs, p)
    ensures |p| <= |reqs|
  {
    ChainDistinct(reqs, p);
    DistinctSize(p);
    ElementsAtMost(reqs);
    var a, b := set r | r in p, set r | r in reqs;
    assert a <= b;
    assert b == a + (b - a);
  }

  // -------------------------------------------------------------- the search

  function Tip(p: Path): string {
    if p == [] then "" else p[|p| - 1].id
  }

  /** The children of a requirement, in the order they are listed. */
  function ChildrenIn(reqs: seq<Requirement>, parent: string): seq<Requirement> {
    if reqs == [] then []
    else
      var rest, last := ChildrenIn(reqs[..|reqs| - 1], parent), reqs[|reqs| - 1];
      if last.parent == parent then rest + [last] else rest
  }

  /** Listed in this order. */
  ghost predicate Sibling(reqs: seq<Requirement>, kids: seq<Requirement>) {
    forall i, j :: 0 <= i < j < |kids| ==> Earlier(reqs, kids[i], kids[j])
  }

  lemma {:induction false} ChildrenExactly(reqs: seq<Requirement>, parent: string)
    ensures forall r :: r in ChildrenIn(reqs, parent) <==> r in reqs && r.parent == parent
    ensures Sibling(reqs, ChildrenIn(reqs, parent))
  {
    if reqs != [] {
      var init, last := reqs[..|reqs| - 1], reqs[|reqs| - 1];
      ChildrenExactly(init, parent);
      assert reqs == init + [last];
      var kids := ChildrenIn(reqs, parent);
      forall i, j | 0 <= i < j < |kids| ensures Earlier(reqs, kids[i], kids[j]) {
        assert forall k :: 0 <= k < |ChildrenIn(init, parent)| ==> kids[k] == ChildrenIn(init, parent)[k];
        if j < |ChildrenIn(init, parent)| {
          assert Earlier(init, kids[i], kids[j]);
          var a, b :| 0 <= a < b < |init| && init[a] == kids[i] && init[b] == kids[j];
          assert reqs[a] == kids[i] && reqs[b] == kids[j];
        } else {
          assert kids[i] in ChildrenIn(init, parent);
          var a :| 0 <= a < |init| && init[a] == kids[i];
          assert reqs[a] == kids[i] && reqs[|reqs| - 1] == kids[j];
        }
      }
    }
  }

  ghost predicate AreChildren(reqs: seq<Requirement>, path: Path, kids: seq<Requirement>) {
    forall i :: 0 <= i < |kids| ==> kids[i] in reqs && kids[i].parent == Tip(path)
  }

  lemma {:induction false} Extend(reqs: seq<Requirement>, path: Path, kid: Requirement)
    requires UniqueIds(reqs) && Chain(reqs, path) && kid in reqs && kid.parent == Tip(path)
    ensures Chain(reqs, path + [kid]) && |path| < |reqs|
    ensures AreChildren(reqs, path + [kid], ChildrenIn(reqs, kid.id))
  {
    ChainShort(reqs, path + [kid]);
    ChildrenExactly(reqs, kid.id);
  }

  /** The chains the search goes through, in order, when it is at `path` with these children left. */
  ghost function Visits(reqs: seq<Requirement>, path: Path, kids: seq<Requirement>): seq<Path>
    requires UniqueIds(reqs) && Chain(reqs, path) && AreChildren(reqs, path, kids)
    decreases |reqs| - |path|, |kids|
  {
    if kids == [] then []
    else
      Extend(reqs, path, kids[0]);
      Visits(reqs, path + [kids[0]], ChildrenIn(reqs, kids[0].id)) + [path + [kids[0]]]
      + Visits(reqs, path, kids[1..])
  }

  ghost predicate Under(path: Path, kids: seq<Requirement>, p: Path) {
    |p| > |path| && path <= p && p[|path|] in kids
  }

  /** A chain from a root that goes on below path goes through one of the children. */
  lemma {:induction false} UnderSplits(reqs: seq<Requirement>, path: Path, kids: seq<Requirement>, p: Path)
    requires kids != [] && RootPath(reqs, p)
    ensures Under(path, kids, p)
       <==> p == path + [kids[0]] || Under(path + [kids[0]], ChildrenIn(reqs, kids[0].id), p) || Under(path, kids[1..], p)
  {
    var kid := kids[0];
    ChildrenExactly(reqs, kid.id);
    assert kids == [kid] + kids[1..];
    if Under(path, kids, p) && p[|path|] == kid {
      assert p[..|path| + 1] == path + [kid];
      if |p| > |path| + 1 {
        assert p[|path| + 1].parent == kid.id && p[|path| + 1] in reqs;
      }
    }
  }

  /** The search goes through exactly the chains from a root. */
  lemma {:induction false} VisitsExactly(reqs: seq<Requirement>, path: Path, kids: seq<Requirement>, p: Path)
    requires UniqueIds(reqs) && Chain(reqs, path) && AreChildren(reqs, path, kids)
    ensures p in Visits(reqs, path, kids) <==> RootPath(reqs, p) && Under(path, kids, p)
    decreases |reqs| - |path|, |kids|
  {
    if kids != [] {
      var kid := kids[0];
      Extend(reqs, path, kid);
      VisitsExactly(reqs, path + [kid], ChildrenIn(reqs, kid.id), p);
      VisitsExactly(reqs, path, kids[1..], p);
      if RootPath(reqs, p) {
        UnderSplits(reqs, path, kids, p);
      }
      ExtendsToRoot(reqs, path, kids);
    }
  }

  lemma {:induction false} ExtendsToRoot(reqs: seq<Requirement>, path: Path, kids: seq<Requirement>)
    requires UniqueIds(reqs) && Chain(reqs, path) && AreChildren(reqs, path, kids) && kids != []
    ensures RootPath(reqs, path + [kids[0]])
  {
    Extend(reqs, path, kids[0]);
  }

  ghost predicate Ordered(reqs: seq<Requirement>, ps: seq<Path>) {
    forall i, j :: 0 <= i < j < |ps| ==> Before(reqs, ps[i], ps[j])
  }

  lemma {:induction false} BelowBeforeAfter(reqs: seq<Requirement>, path: Path, kids: seq<Requirement>, p: Path, q: Path)
    requires kids != [] && Sibling(reqs, kids)
    requires path + [kids[0]] <= p && Under(path, kids[1..], q)
    ensures Before(reqs, p, q)
  {
    var m := |path|;
    var i :| 0 <= i < |kids[1..]| && kids[1..][i] == q[m];
    assert kids[i + 1] == q[m];
    assert p[m] == (path + [kids[0]])[m] == kids[0];
    assert p[..m] == path == q[..m];
    assert PartsEarlier(reqs, p, q, m);
  }

  /** ... and in post-order. */
  lemma {:induction false} VisitsOrdered(reqs: seq<Requirement>, path: Path, kids: seq<Requirement>)
    requires UniqueIds(reqs) && Chain(reqs, path) && AreChildren(reqs, path, kids) && Sibling(reqs, kids)
    ensures Ordered(reqs, Visits(reqs, path, kids))
    decreases |reqs| - |path|, |kids|
  {
    if kids != [] {
      var kid := kids[0];
      Extend(reqs, path, kid);
      ChildrenExactly(reqs, kid.id);
      VisitsOrdered(reqs, path + [kid], ChildrenIn(reqs, kid.id));
      VisitsOrdered(reqs, path, kids[1..]);
      var below := Visits(reqs, path + [kid], ChildrenIn(reqs, kid.id));
      var after := Visits(reqs, path, kids[1..]);
      forall i | 0 <= i < |below| ensures Before(reqs, below[i], path + [kid]) {
        VisitsExactly(reqs, path + [kid], ChildrenIn(reqs, kid.id), below[i]);
      }
      forall j | 0 <= j < |after|
        ensures Before(reqs, path + [kid], after[j]) && forall i :: 0 <= i < |below| ==> Before(reqs, below[i], after[j])
      {
        VisitsExactly(reqs, path, kids[1..], after[j]);
        BelowBeforeAfter(reqs, path, kids, path + [kid], after[j]);
        forall i | 0 <= i < |below| ensures Before(reqs, below[i], after[j]) {
          VisitsExactly(reqs, path + [kid], ChildrenIn(reqs, kid.id), below[i]);
          BelowBeforeAfter(reqs, path, kids, below[i], after[j]);
        }
      }
      OrderedJoin(reqs, below, path + [kid], after);
    }
  }

  lemma OrderedJoin(reqs: seq<Requirement>, below: seq<Path>, mid: Path, after: seq<Path>)
    requires Ordered(reqs, below) && Ordered(reqs, after)
    requires forall i :: 0 <= i < |below| ==> Before(reqs, below[i], mid)
    requires forall j :: 0 <= j < |after| ==> Before(reqs, mid, after[j])
    requires forall i, j :: 0 <= i < |below| && 0 <= j < |after| ==> Before(reqs, below[i], after[j])
    ensures Ordered(reqs, below + [mid] + after)
  {
    var all := below + [mid] + after;
    forall i, j | 0 <= i < j < |all| ensures Before(reqs, all[i], all[j]) {
      if j < |below| {
        assert Before(reqs, below[i], below[j]) && all[i] == below[i] && all[j] == below[j];
      } else if j == |below| {
        assert all[i] == below[i] && all[j] == mid;
      } else {
        var k := j - |below| - 1;
        assert all[j] == after[k];
        if i < |below| {
          assert all[i] == below[i];
        } else if i == |below| {
          assert all[i] == mid;
        } else {
          assert Before(reqs, after[i - |below| - 1], after[k]) && all[i] == after[i - |below| - 1];
        }
      }
    }
  }

  /** The first of these chains whose last requirement does not pass. */
  ghost function FirstOf(ps: seq<Path>): Option<Path>
    requires forall i :: 0 <= i < |ps| ==> ps[i] != []
  {
    if ps == [] then None
    else if !Passes(LastOf(ps[0])) then Some(ps[0])
    else FirstOf(ps[1..])
  }

  lemma {:induction false} FirstOfAt(ps: seq<Path>)
    requires forall i :: 0 <= i < |ps| ==> ps[i] != []
    ensures FirstOf(ps).None? ==> forall i :: 0 <= i < |ps| ==> Passes(LastOf(ps[i]))
    ensures FirstOf(ps).Some? ==>
              exists k :: 0 <= k < |ps| && ps[k] == FirstOf(ps).value && !Passes(LastOf(ps[k]))
                          && forall i :: 0 <= i < k ==> Passes(LastOf(ps[i]))
  {
    if ps != [] && Passes(LastOf(ps[0])) {
      FirstOfAt(ps[1..]);
      if FirstOf(ps).Some? {
        var k :| 0 <= k < |ps[1..]| && ps[1..][k] == FirstOf(ps).value && !Passes(LastOf(ps[1..][k]))
                 && forall i :: 0 <= i < k ==> Passes(LastOf(ps[1..][i]));
        assert ps[k + 1] == FirstOf(ps).value;
        assert forall i :: 1 <= i < k + 1 ==> ps[i] == ps[1..][i - 1];
      } else {
        assert forall i :: 1 <= i < |ps| ==> ps[i] == ps[1..][i - 1];
      }
    }
  }

  lemma {:induction false} FirstOfJoin(a: seq<Path>, b: seq<Path>)
    requires forall i :: 0 <= i < |a| ==> a[i] != []
    requires forall i :: 0 <= i < |b| ==> b[i] != []
    ensures FirstOf(a + b) == if FirstOf(a).Some? then FirstOf(a) else FirstOf(b)
  {
    if a == [] {
      assert a + b == b;
    } else {
      assert (a + b)[1..] == a[1..] + b;
      FirstOfJoin(a[1..], b);
    }
  }

  lemma {:induction false} VisitsNonempty(reqs: seq<Requirement>, path: Path, kids: seq<Requirement>)
    requires UniqueIds(reqs) && Chain(reqs, path) && AreChildren(reqs, path, kids)
    ensures forall i :: 0 <= i < |Visits(reqs, path, kids)| ==> Visits(reqs, path, kids)[i] != []
  {
    forall i | 0 <= i < |Visits(reqs, path, kids)| ensures Visits(reqs, path, kids)[i] != [] {
      VisitsExactly(reqs, path, kids, Visits(reqs, path, kids)[i]);
    }
  }

  ghost function Answer(reqs: seq<Requirement>, path: Path, kids: seq<Requirement>): Option<Path>
    requires UniqueIds(reqs) && Chain(reqs, path) && AreChildren(reqs, path, kids)
  {
    VisitsNonempty(reqs, path, kids);
    FirstOf(Visits(reqs, path, kids))
  }

  /** Unfolding the answer: below the first child, then the child itself, then its siblings. */
  lemma {:induction false} AnswerStep(reqs: seq<Requirement>, path: Path, kids: seq<Requirement>)
    requires UniqueIds(reqs) && Chain(reqs, path) && AreChildren(reqs, path, kids) && kids != []
    ensures Chain(reqs, path + [kids[0]]) && |path| < |reqs|
    ensures AreChildren(reqs, path + [kids[0]], ChildrenIn(reqs, kids[0].id))
    ensures var below := Answer(reqs, path + [kids[0]], ChildrenIn(reqs, kids[0].id));
            Answer(reqs, path, kids)
            == if below.Some? then below
               else if !Passes(kids[0]) then Some(path + [kids[0]])
               else Answer(reqs, path, kids[1..])
  {
    var kid := kids[0];
    Extend(reqs, path, kid);
    VisitsNonempty(reqs, path + [kid], ChildrenIn(reqs, kid.id));
    VisitsNonempty(reqs, path, kids[1..]);
    var below := Visits(reqs, path + [kid], ChildrenIn(reqs, kid.id));
    var after := Visits(reqs, path, kids[1..]);
    FirstOfJoin(below, [path + [kid]]);
    FirstOfJoin(below + [path + [kid]], after);
    assert [path + [kid]][1..] == [];
  }

  // --------------------------------------------------------------- the code

  ghost predicate Indexed(reqs: seq<Requirement>, byID: map<string, Requirement>, children: map<string, seq<string>>) {
    && (forall r :: r in reqs ==> r.id in byID)
    && (forall id :: id in byID ==> byID[id] in reqs && byID[id].id == id)
    && (forall parent :: parent in children ==> children[parent] == Ids(ChildrenIn(reqs, parent)))
    && (forall parent :: parent !in children ==> ChildrenIn(reqs, parent) == [])
  }

  /** The maps built before the search; of requirements with one id the last is found by it. */
  function ByID(reqs: seq<Requirement>): map<string, Requirement> {
    if reqs == [] then map[]
    else ByID(reqs[..|reqs| - 1])[reqs[|reqs| - 1].id := reqs[|reqs| - 1]]
  }

  function Children(reqs: seq<Requirement>): map<string, seq<string>> {
    if reqs == [] then map["" := []]
    else
      var r, before := reqs[|reqs| - 1], Children(reqs[..|reqs| - 1]);
      before[r.parent := KidsOf(before, r.parent) + [r.id]]
  }

  method Index(reqs: seq<Requirement>) returns (byID: map<string, Requirement>, children: map<string, seq<string>>)
    ensures byID == ByID(reqs) && children == Children(reqs)
  {
    byID := map[];
    children := map["" := []];
    for i := 0 to |reqs|
      invariant byID == ByID(reqs[..i]) && children == Children(reqs[..i])
    {
      var r := reqs[i];
      assert reqs[..i + 1][..i] == reqs[..i];
      byID := byID[r.id := r];
      var siblings := KidsOf(children, r.parent);
      children := children[r.parent := siblings + [r.id]];
    }
    assert reqs[..|reqs|] == reqs;
  }

  lemma {:induction false} IsIndexed(reqs: seq<Requirement>)
    ensures Indexed(reqs, ByID(reqs), Children(reqs)) && Closed(ByID(reqs), Children(reqs))
    ensures |ByID(reqs).Keys| <= |reqs|
  {
    if reqs != [] {
      var init, r := reqs[..|reqs| - 1], reqs[|reqs| - 1];
      assert reqs == init + [r];
      IsIndexed(init);
      IndexStep(init, r, ByID(init), Children(init));
      assert ByID(reqs).Keys == ByID(init).Keys + {r.id};
    }
    IndexedCloses(reqs, ByID(reqs), Children(reqs));
  }

  lemma IndexStep(reqs: seq<Requirement>, r: Requirement, byID: map<string, Requirement>,
                  children: map<string, seq<string>>)
    requires Indexed(reqs, byID, children)
    ensures Indexed(reqs + [r], byID[r.id := r], children[r.parent := KidsOf(children, r.parent) + [r.id]])
  {
    var all, more := reqs + [r], children[r.parent := KidsOf(children, r.parent) + [r.id]];
    forall parent
      ensures parent in more ==> more[parent] == Ids(ChildrenIn(all, parent))
      ensures parent !in more ==> ChildrenIn(all, parent) == []
    {
      ChildrenSnoc(reqs, r, parent);
      assert Ids(ChildrenIn(reqs, parent) + [r]) == Ids(ChildrenIn(reqs, parent)) + [r.id];
    }
  }

  lemma ChildrenSnoc(reqs: seq<Requirement>, r: Requirement, parent: string)
    ensures ChildrenIn(reqs + [r], parent)
         == if r.parent == parent then ChildrenIn(reqs, parent) + [r] else ChildrenIn(reqs, parent)
  {
    assert (reqs + [r])[..|reqs|] == reqs;
  }

  function Ids(rs: seq<Requirement>): (ids: seq<string>)
    ensures |ids| == |rs|
  {
    seq(|rs|, i requires 0 <= i < |rs| => rs[i].id)
  }

  function KidsOf(children: map<string, seq<string>>, id: string): seq<string> {
    if id in children then children[id] else []
  }

  datatype Outcome = Unfinished | Nothing | Found(path: Path)

  /** What the recursion comes to within this many levels, when these children are left and it stands at path. */
  function Search(byID: map<string, Requirement>, children: map<string, seq<string>>, ids: seq<string>, path: Path,
                  levels: nat): Outcome
    requires forall i :: 0 <= i < |ids| ==> ids[i] in byID
    requires Closed(byID, children)
    decreases levels, |ids|
  {
    if ids == [] then Nothing
    else
      var r := byID[ids[0]];
      var kids := KidsOf(children, ids[0]);
      var below := if kids == [] then Nothing
                   else if levels == 0 then Unfinished
                   else Search(byID, children, kids, path + [r], levels - 1);
      if !below.Nothing? then below
      else if !Passes(r) then Found(path + [r])
      else Search(byID, children, ids[1..], path, levels)
  }

  ghost predicate Closed(byID: map<string, Requirement>, children: map<string, seq<string>>) {
    forall parent, i :: parent in children && 0 <= i < |children[parent]| ==> children[parent][i] in byID
  }

  lemma IndexedCloses(reqs: seq<Requirement>, byID: map<string, Requirement>, children: map<string, seq<string>>)
    requires Indexed(reqs, byID, children)
    ensures Closed(byID, children)
    ensures forall parent :: KidsOf(children, parent) == Ids(ChildrenIn(reqs, parent))
  {
    forall parent, i | parent in children && 0 <= i < |children[parent]|
      ensures children[parent][i] in byID
    {
      ChildrenExactly(reqs, parent);
      assert ChildrenIn(reqs, parent)[i] in reqs;
    }
  }

  /** The recursive search below one requirement, wherever it ends at all. */
  method Dfs(byID: map<string, Requirement>, children: map<string, seq<string>>, parentID: string, path: Path,
             ghost levels: nat)
    returns (found: Option<Requirement>, foundPath: Path)
    requires Closed(byID, children) && Search(byID, children, KidsOf(children, parentID), path, levels) != Unfinished
    ensures Reports(found, foundPath, Search(byID, children, KidsOf(children, parentID), path, levels))
    decreases levels
  {
    var ids := KidsOf(children, parentID);
    assert ids[0..] == ids;
    for i := 0 to |ids|
      invariant Search(byID, children, ids[i..], path, levels) == Search(byID, children, ids, path, levels)
    {
      var r := byID[ids[i]];
      assert ids[i..][0] == ids[i] && ids[i..][1..] == ids[i + 1..];
      var currentPath := path + [r];
      if ids[i] in children && |children[ids[i]]| > 0 {
        var f, p := Dfs(byID, children, ids[i], currentPath, levels - 1);
        if f.Some? {
          return f, p;
        }
      }
      if !Passes(r) {
        return Some(r), currentPath;
      }
    }
    return None, [];
  }

  /** What the two results of the program say. */
  ghost predicate Reports(found: Option<Requirement>, foundPath: Path, outcome: Outcome) {
    match outcome
    case Unfinished => false
    case Nothing => found.None? && foundPath == []
    case Found(path) => path != [] && foundPath == path && found == Some(LastOf(path))
  }

  /**
   Returns the first requirement in post-order that does not pass, with the
   chain that leads to it, or nothing when all that can be reached pass.
   */
  method DfsNextNonPassing(reqs: seq<Requirement>) returns (found: Option<Requirement>, path: Path)
    requires StoppedInTime(reqs)
    ensures FirstWalk(reqs, found, path)
    ensures UniqueIds(reqs) ==> RightAnswer(reqs, found, path)
  {
    hide Search, Indexed, Closed, RightAnswer, StoppedInTime, FirstWalk;
    var byID, children := Index(reqs);
    IsIndexed(reqs);
    EndsExactly(reqs);
    found, path := Dfs(byID, children, "", [], |reqs|);
    FirstIsReported(reqs, found, path);
    if UniqueIds(reqs) {
      SearchIsRight(reqs, byID, children, found, path);
    }
  }

  /** The first failing chain in post-order, or nothing when there is none. */
  ghost predicate RightAnswer(reqs: seq<Requirement>, found: Option<Requirement>, path: Path) {
    && (found.Some? ==> FirstFailing(reqs, path) && found.value == LastOf(path))
    && (found.None? <==> forall p :: RootPath(reqs, p) ==> LastOf(p).status == "pass")
  }

  lemma SearchIsRight(reqs: seq<Requirement>, byID: map<string, Requirement>, children: map<string, seq<string>>,
                      found: Option<Requirement>, path: Path)
    requires UniqueIds(reqs) && Indexed(reqs, byID, children) && Closed(byID, children)
    requires forall i :: 0 <= i < |KidsOf(children, "")| ==> KidsOf(children, "")[i] in byID
    requires Reports(found, path, Search(byID, children, KidsOf(children, ""), [], |reqs|))
    ensures RightAnswer(reqs, found, path)
  {
    assert Chain(reqs, []);
    hide Search, Answer, Indexed, Closed, Chain, AreChildren, FirstFailing, ChildrenIn, RootPath, UniqueIds;
    AnswerMeans(reqs);
    KidsIndexed(reqs, byID, children, [], ChildrenIn(reqs, ""));
    IndexedCloses(reqs, byID, children);
    SearchAnswers(reqs, byID, children, [], ChildrenIn(reqs, ""), |reqs|);
  }

  lemma UniqueIndex(reqs: seq<Requirement>, byID: map<string, Requirement>, children: map<string, seq<string>>,
                    r: Requirement)
    requires UniqueIds(reqs) && Indexed(reqs, byID, children) && r in reqs
    ensures r.id in byID && byID[r.id] == r
  {
    var i :| 0 <= i < |reqs| && reqs[i] == r;
    var j :| 0 <= j < |reqs| && reqs[j] == byID[r.id];
  }

  ghost function Reported(answer: Option<Path>): Outcome {
    match answer
    case None => Nothing
    case Some(p) => Found(p)
  }

  /** Every one of these requirements is found by its id. */
  ghost predicate AllFound(byID: map<string, Requirement>, kids: seq<Requirement>) {
    forall i :: 0 <= i < |kids| ==> Ids(kids)[i] in byID && byID[Ids(kids)[i]] == kids[i]
  }

  lemma KidsIndexed(reqs: seq<Requirement>, byID: map<string, Requirement>, children: map<string, seq<string>>,
                    path: Path, kids: seq<Requirement>)
    requires UniqueIds(reqs) && Indexed(reqs, byID, children) && AreChildren(reqs, path, kids)
    ensures AllFound(byID, kids)
    ensures kids != [] ==> AreChildren(reqs, path, kids[1..]) && AllFound(byID, kids[1..])
  {
    forall i | 0 <= i < |kids|
      ensures Ids(kids)[i] in byID && byID[Ids(kids)[i]] == kids[i]
    {
      UniqueIndex(reqs, byID, children, kids[i]);
    }
  }

  /** With ids that are unique and not empty the recursion finds the first failing chain. */
  lemma {:induction false} SearchAnswers(reqs: seq<Requirement>, byID: map<string, Requirement>,
                                         children: map<string, seq<string>>, path: Path, kids: seq<Requirement>,
                                         levels: nat)
    requires UniqueIds(reqs) && Indexed(reqs, byID, children) && Closed(byID, children)
    requires Chain(reqs, path) && AreChildren(reqs, path, kids) && levels >= |reqs| - |path|
    requires AllFound(byID, kids)
    ensures Search(byID, children, Ids(kids), path, levels) == Reported(Answer(reqs, path, kids))
    decreases levels, |kids|
  {
    hide Search, Answer, Indexed, Closed, UniqueIds, Chain, AreChildren, ChildrenIn, Ids;
    if kids == [] {
      NoKidsNoAnswer(reqs, path, kids);
      SearchNone(byID, children, path, levels);
    } else {
      var kid, below := kids[0], ChildrenIn(reqs, kids[0].id);
      KidsIndexed(reqs, byID, children, path, kids);
      AnswerStep(reqs, path, kids);
      KidsIndexed(reqs, byID, children, path + [kid], below);
      IndexedCloses(reqs, byID, children);
      SearchAnswers(reqs, byID, children, path + [kid], below, levels - 1);
      SearchAnswers(reqs, byID, children, path, kids[1..], levels);
      SearchUnfolds(byID, children, kids, path, levels);
      NoKidsNoAnswer(reqs, path + [kid], below);
    }
  }

  lemma SearchNone(byID: map<string, Requirement>, children: map<string, seq<string>>, path: Path, levels: nat)
    requires Closed(byID, children)
    ensures Ids([]) == [] && Search(byID, children, Ids([]), path, levels) == Nothing
  {
  }

  lemma {:induction false} NoKidsNoAnswer(reqs: seq<Requirement>, path: Path, kids: seq<Requirement>)
    requires UniqueIds(reqs) && Chain(reqs, path) && AreChildren(reqs, path, kids)
    ensures kids == [] ==> Answer(reqs, path, kids) == None
  {
  }

  lemma {:induction false} SearchUnfolds(byID: map<string, Requirement>, children: map<string, seq<string>>,
                                         kids: seq<Requirement>, path: Path, levels: nat)
    requires kids != [] && levels > 0 && Closed(byID, children)
    requires AllFound(byID, kids)
    ensures var below := if KidsOf(children, kids[0].id) == [] then Nothing
                         else Search(byID, children, KidsOf(children, kids[0].id), path + [kids[0]], levels - 1);
            Search(byID, children, Ids(kids), path, levels)
            == if !below.Nothing? then below
               else if !Passes(kids[0]) then Found(path + [kids[0]])
               else Search(byID, children, Ids(kids[1..]), path, levels)
  {
    assert Ids(kids)[1..] == Ids(kids[1..]);
  }

  lemma {:induction false} AnswerMeans(reqs: seq<Requirement>)
    requires UniqueIds(reqs)
    ensures AreChildren(reqs, [], ChildrenIn(reqs, ""))
    ensures var answer := Answer(reqs, [], ChildrenIn(reqs, ""));
            && (answer.Some? ==> FirstFailing(reqs, answer.value))
            && (answer.None? <==> forall p :: RootPath(reqs, p) ==> LastOf(p).status == "pass")
  {
    var roots := ChildrenIn(reqs, "");
    ChildrenExactly(reqs, "");
    var ps := Visits(reqs, [], roots);
    VisitsOrdered(reqs, [], roots);
    VisitsNonempty(reqs, [], roots);
    FirstOfAt(ps);
    forall p ensures p in ps <==> RootPath(reqs, p) { VisitsExactly(reqs, [], roots, p); }
    if FirstOf(ps).Some? {
      var k :| 0 <= k < |ps| && ps[k] == FirstOf(ps).value && !Passes(LastOf(ps[k]))
               && forall i :: 0 <= i < k ==> Passes(LastOf(ps[i]));
      assert ps[k] in ps;
      forall q | RootPath(reqs, q) && Before(reqs, q, ps[k]) ensures Passes(LastOf(q)) {
        assert q in ps;
        var i :| 0 <= i < |ps| && ps[i] == q;
        if i > k {
          BeforeAsymmetric(reqs, ps[k], q);
        }
        if i == k {
          BeforeAsymmetric(reqs, q, q);
        }
      }
    } else {
      forall p | RootPath(reqs, p) ensures Passes(LastOf(p)) {
        assert p in ps;
      }
    }
  }

  lemma {:induction false} NotEarlierSelf(reqs: seq<Requirement>, a: Requirement)
    requires UniqueIds(reqs)
    ensures !Earlier(reqs, a, a)
  {
  }

  lemma {:induction false} NotBothEarlier(reqs: seq<Requirement>, a: Requirement, b: Requirement)
    requires UniqueIds(reqs) && Earlier(reqs, a, b)
    ensures a != b && !Earlier(reqs, b, a)
  {
  }

  lemma {:induction false} PrefixNeverParts(reqs: seq<Requirement>, p: Path, q: Path, k: nat)
    requires UniqueIds(reqs) && q <= p
    ensures !PartsEarlier(reqs, q, p, k) && !PartsEarlier(reqs, p, q, k)
  {
    if k < |q| {
      NotEarlierSelf(reqs, q[k]);
    }
  }

  lemma {:induction false} PartsOneWay(reqs: seq<Requirement>, p: Path, q: Path, k: nat, m: nat)
    requires UniqueIds(reqs) && PartsEarlier(reqs, p, q, k)
    ensures !PartsEarlier(reqs, q, p, m)
  {
    NotBothEarlier(reqs, p[k], q[k]);
    if m < k {
      assert p[m] == p[..k][m] == q[..k][m] == q[m];
      NotEarlierSelf(reqs, p[m]);
    } else if k < m && m < |p| && m < |q| {
      assert p[..m][k] != q[..m][k];
    }
  }

  lemma {:induction false} BeforeAsymmetric(reqs: seq<Requirement>, p: Path, q: Path)
    requires UniqueIds(reqs) && Before(reqs, p, q)
    ensures !Before(reqs, q, p)
  {
    if q < p {
      forall k: nat ensures !PartsEarlier(reqs, q, p, k) { PrefixNeverParts(reqs, p, q, k); }
    } else {
      var k: nat :| PartsEarlier(reqs, p, q, k);
      forall m: nat ensures !PartsEarlier(reqs, q, p, m) { PartsOneWay(reqs, p, q, k, m); }
      if p <= q {
        PrefixNeverParts(reqs, q, p, k);
      }
    }
  }

  // ---------------------------------------------------- when everything passes

  /** Every parent named exists, and some rank falls from each requirement to its parent. */
  ghost predicate Forest(reqs: seq<Requirement>, rank: string -> nat) {
    forall r :: r in reqs && r.parent != "" ==>
      rank(r.parent) < rank(r.id) && exists p :: p in reqs && p.id == r.parent
  }

  lemma {:induction false} OneMore(reqs: seq<Requirement>, above: Path, r: Requirement)
    requires RootPath(reqs, above) && r in reqs && r.parent == LastOf(above).id
    ensures RootPath(reqs, above + [r])
  {
  }

  lemma {:induction false} Reached(reqs: seq<Requirement>, rank: string -> nat, r: Requirement) returns (p: Path)
    requires UniqueIds(reqs) && Forest(reqs, rank) && r in reqs
    ensures RootPath(reqs, p) && LastOf(p) == r
    decreases rank(r.id)
  {
    if r.parent == "" {
      p := [r];
    } else {
      hide RootPath, UniqueIds;
      var parent :| parent in reqs && parent.id == r.parent;
      var above := Reached(reqs, rank, parent);
      p := above + [r];
      OneMore(reqs, above, r);
    }
  }

  /** When every parent exists and the links have no cycle, nothing is returned exactly when all requirements pass. */
  lemma NothingLeft(reqs: seq<Requirement>, rank: string -> nat)
    requires UniqueIds(reqs) && Forest(reqs, rank)
    ensures (forall p :: RootPath(reqs, p) ==> LastOf(p).status == "pass") <==> (forall r :: r in reqs ==> r.status == "pass")
  {
    if forall p :: RootPath(reqs, p) ==> Passes(LastOf(p)) {
      forall r | r in reqs ensures Passes(r) { var p := Reached(reqs, rank, r); }
    }
    if forall r :: r in reqs ==> Passes(r) {
      forall p | RootPath(reqs, p) ensures Passes(LastOf(p)) { assert p[|p| - 1] in reqs; }
    }
  }

  // ---------------------------------------------------------- chains of ids

  ghost predicate IsChildId(reqs: seq<Requirement>, id: string, parent: string) {
    exists r :: r in reqs && r.id == id && r.parent == parent
  }

  function TipOf(start: string, ids: seq<string>): string {
    if ids == [] then start else ids[|ids| - 1]
  }

  /** Ids the recursion can follow from one, each a child of the one before. */
  ghost predicate From(reqs: seq<Requirement>, start: string, ids: seq<string>) {
    forall k: nat :: k < |ids| ==> ChildAt(reqs, start, ids, k)
  }

  ghost predicate ChildAt(reqs: seq<Requirement>, start: string, ids: seq<string>, k: nat)
    requires k < |ids|
  {
    IsChildId(reqs, ids[k], if k == 0 then start else ids[k - 1])
  }

  ghost predicate Descends(reqs: seq<Requirement>, ids: seq<string>) {
    From(reqs, "", ids)
  }

  ghost predicate DistinctIds(ids: seq<string>) {
    forall i, j :: 0 <= i < j < |ids| ==> ids[i] != ids[j]
  }

  /** No chain of child ids from the empty one comes back to an id. */
  ghost predicate NoRepeat(reqs: seq<Requirement>) {
    forall ids :: Descends(reqs, ids) ==> DistinctIds([""] + ids)
  }

  ghost predicate BoundedBy(reqs: seq<Requirement>, n: nat) {
    forall ids :: Descends(reqs, ids) ==> |ids| <= n
  }

  /** Chains can be put together where one ends and the other begins. */
  lemma FromJoins(reqs: seq<Requirement>, start: string, a: seq<string>, b: seq<string>)
    requires From(reqs, start, a) && From(reqs, TipOf(start, a), b)
    ensures From(reqs, start, a + b) && TipOf(start, a + b) == TipOf(TipOf(start, a), b)
  {
    forall k: nat | k < |a + b|
      ensures ChildAt(reqs, start, a + b, k)
    {
      if k >= |a| {
        assert ChildAt(reqs, TipOf(start, a), b, k - |a|);
      } else {
        assert ChildAt(reqs, start, a, k);
      }
    }
  }

  lemma FromParts(reqs: seq<Requirement>, start: string, ids: seq<string>, i: nat)
    requires From(reqs, start, ids) && i <= |ids|
    ensures From(reqs, start, ids[..i]) && From(reqs, TipOf(start, ids[..i]), ids[i..])
  {
    forall k: nat | k < i
      ensures ChildAt(reqs, start, ids[..i], k)
    {
      assert ChildAt(reqs, start, ids, k);
    }
    forall k: nat | k < |ids[i..]|
      ensures ChildAt(reqs, TipOf(start, ids[..i]), ids[i..], k)
    {
      assert ChildAt(reqs, start, ids, i + k);
    }
  }

  /** A loop can be gone round as often as one likes. */
  lemma {:induction false} Pumped(reqs: seq<Requirement>, ids: seq<string>, loop: seq<string>, n: nat)
      returns (longer: seq<string>)
    requires Descends(reqs, ids) && loop != []
    requires From(reqs, TipOf("", ids), loop) && TipOf(TipOf("", ids), loop) == TipOf("", ids)
    ensures Descends(reqs, longer) && |longer| >= n
    decreases n - |ids|
  {
    if n <= |ids| {
      longer := ids;
    } else {
      FromJoins(reqs, "", ids, loop);
      longer := Pumped(reqs, ids + loop, loop, n);
    }
  }

  lemma RepeatIsLong(reqs: seq<Requirement>, ids: seq<string>, n: nat) returns (longer: seq<string>)
    requires Descends(reqs, ids) && !DistinctIds([""] + ids)
    ensures Descends(reqs, longer) && |longer| >= n
  {
    var all := [""] + ids;
    var i, j :| 0 <= i < j < |all| && all[i] == all[j];
    FromParts(reqs, "", ids, j);
    FromParts(reqs, "", ids[..j], i);
    assert ids[..j][..i] == ids[..i];
    assert TipOf("", ids[..i]) == all[i];
    longer := Pumped(reqs, ids[..i], ids[..j][i..], n);
  }

  /** Without a repetition there are no more ids on a chain than requirements. */
  lemma DescendsShort(reqs: seq<Requirement>, ids: seq<string>)
    requires NoRepeat(reqs) && Descends(reqs, ids)
    ensures |ids| <= |reqs|
  {
    var a, b := set id | id in ids, set id | id in Ids(reqs);
    DistinctTail(ids);
    DistinctSize(ids);
    ElementsAtMost(Ids(reqs));
    forall id | id in ids
      ensures id in Ids(reqs)
    {
      ChainIdListed(reqs, ids, id);
    }
    assert b == a + (b - a);
  }

  lemma DistinctTail(ids: seq<string>)
    requires DistinctIds([""] + ids)
    ensures DistinctIds(ids)
  {
    assert forall k :: 0 <= k < |ids| ==> ([""] + ids)[k + 1] == ids[k];
  }

  lemma ChainIdListed(reqs: seq<Requirement>, ids: seq<string>, id: string)
    requires Descends(reqs, ids) && id in ids
    ensures id in Ids(reqs)
  {
    var k: nat :| k < |ids| && ids[k] == id;
    assert ChildAt(reqs, "", ids, k);
    var r :| r in reqs && r.id == id;
    var m :| 0 <= m < |reqs| && reqs[m] == r;
    assert Ids(reqs)[m] == id;
  }

  /** The chains of child ids have a common bound exactly when none of them repeats an id. */
  lemma BoundedExactly(reqs: seq<Requirement>)
    ensures (exists n: nat :: BoundedBy(reqs, n)) <==> NoRepeat(reqs)
  {
    if NoRepeat(reqs) {
      forall ids | Descends(reqs, ids)
        ensures |ids| <= |reqs|
      {
        DescendsShort(reqs, ids);
      }
      assert BoundedBy(reqs, |reqs|);
    } else {
      var ids :| Descends(reqs, ids) && !DistinctIds([""] + ids);
      forall n: nat
        ensures !BoundedBy(reqs, n)
      {
        var longer := RepeatIsLong(reqs, ids, n + 1);
      }
    }
  }

  /** The requirements behind a chain of ids. */
  lemma {:induction false} PathOf(reqs: seq<Requirement>, ids: seq<string>) returns (p: Path)
    requires Descends(reqs, ids)
    ensures Chain(reqs, p) && Ids(p) == ids
  {
    if ids == [] {
      p := [];
    } else {
      var n := |ids| - 1;
      FromParts(reqs, "", ids, n);
      var above := PathOf(reqs, ids[..n]);
      assert ChildAt(reqs, "", ids, n);
      var r :| r in reqs && r.id == ids[n] && r.parent == if n == 0 then "" else ids[n - 1];
      p := above + [r];
      assert n > 0 ==> above[n - 1].id == Ids(above)[n - 1];
    }
  }

  /** Unique ids that are not empty never repeat, whatever the parents are, so that the search ends. */
  lemma UniqueNeverRepeat(reqs: seq<Requirement>)
    requires UniqueIds(reqs)
    ensures NoRepeat(reqs) && StoppedInTime(reqs)
  {
    hide StoppedInTime;
    NoRepeatEnds(reqs);
    forall ids | Descends(reqs, ids)
      ensures DistinctIds([""] + ids)
    {
      var p := PathOf(reqs, ids);
      ChainDistinct(reqs, p);
      forall i, j | 0 <= i < j < |[""] + ids|
        ensures ([""] + ids)[i] != ([""] + ids)[j]
      {
        assert ids[j - 1] == p[j - 1].id && p[j - 1] in reqs;
        if i > 0 {
          assert ids[i - 1] == p[i - 1].id && p[i - 1] in reqs && p[i - 1] != p[j - 1];
        }
      }
    }
  }

  lemma KidsAreChildren(reqs: seq<Requirement>, byID: map<string, Requirement>, children: map<string, seq<string>>,
                        parent: string)
    requires Indexed(reqs, byID, children)
    ensures forall id :: id in KidsOf(children, parent) <==> IsChildId(reqs, id, parent)
  {
    IndexedCloses(reqs, byID, children);
    forall id
      ensures id in KidsOf(children, parent) <==> IsChildId(reqs, id, parent)
    {
      KidIsChild(reqs, parent, id);
    }
  }

  lemma KidIsChild(reqs: seq<Requirement>, parent: string, id: string)
    ensures id in Ids(ChildrenIn(reqs, parent)) <==> IsChildId(reqs, id, parent)
  {
    hide ChildrenIn;
    ChildrenExactly(reqs, parent);
    var kids := ChildrenIn(reqs, parent);
    if id in Ids(kids) {
      var k :| 0 <= k < |kids| && Ids(kids)[k] == id;
      assert kids[k] in kids;
    }
    if IsChildId(reqs, id, parent) {
      var r :| r in reqs && r.id == id && r.parent == parent;
      var k :| 0 <= k < |kids| && kids[k] == r;
      assert Ids(kids)[k] == id;
    }
  }

  // ------------------------------------------------------------------ walks

  ghost predicate Known(byID: map<string, Requirement>, children: map<string, seq<string>>, ids: seq<string>) {
    Closed(byID, children) && forall i :: 0 <= i < |ids| ==> ids[i] in byID
  }

  /** Positions in the lists of children: one in this list, one in that of the child found there, and so on. */
  ghost predicate IsWalk(children: map<string, seq<string>>, ids: seq<string>, w: seq<nat>)
    decreases |w|
  {
    w == [] || (w[0] < |ids| && IsWalk(children, KidsOf(children, ids[w[0]]), w[1..]))
  }

  ghost function WalkIds(children: map<string, seq<string>>, ids: seq<string>, w: seq<nat>): (xs: seq<string>)
    requires IsWalk(children, ids, w)
    ensures |xs| == |w|
    decreases |w|
  {
    if w == [] then [] else [ids[w[0]]] + WalkIds(children, KidsOf(children, ids[w[0]]), w[1..])
  }

  ghost function WalkPath(byID: map<string, Requirement>, children: map<string, seq<string>>, ids: seq<string>,
                          w: seq<nat>): (p: Path)
    requires Known(byID, children, ids) && IsWalk(children, ids, w)
    ensures |p| == |w|
    decreases |w|
  {
    if w == [] then []
    else [byID[ids[w[0]]]] + WalkPath(byID, children, KidsOf(children, ids[w[0]]), w[1..])
  }

  /** A walk to a requirement that does not pass. */
  ghost predicate Fails(byID: map<string, Requirement>, children: map<string, seq<string>>, ids: seq<string>,
                        w: seq<nat>): (fails: bool)
    requires Known(byID, children, ids)
    ensures fails ==> w != [] && IsWalk(children, ids, w)
    decreases |w|
  {
    && w != [] && w[0] < |ids|
    && if |w| == 1 then byID[ids[w[0]]].status != "pass" else Fails(byID, children, KidsOf(children, ids[w[0]]), w[1..])
  }

  ghost predicate NoneFails(byID: map<string, Requirement>, children: map<string, seq<string>>, ids: seq<string>)
    requires Known(byID, children, ids)
  {
    forall v :: !Fails(byID, children, ids, v)
  }

  /** v parts from w, and to its left. */
  ghost predicate Left(v: seq<nat>, w: seq<nat>) {
    v != [] && w != [] && (v[0] < w[0] || (v[0] == w[0] && Left(v[1..], w[1..])))
  }

  /** The end of v is gone through before that of w: it is to the left, or below. */
  ghost predicate Sooner(v: seq<nat>, w: seq<nat>) {
    v != [] && (w == [] || v[0] < w[0] || (v[0] == w[0] && Sooner(v[1..], w[1..])))
  }

  /** The search comes on something that fails before it is through with the first steps of w. */
  ghost predicate Stopped(byID: map<string, Requirement>, children: map<string, seq<string>>, ids: seq<string>,
                          w: seq<nat>)
    requires Known(byID, children, ids)
  {
    exists v :: Fails(byID, children, ids, v) && Left(v, w)
  }

  /** Something fails in an earlier sibling, or below one. */
  ghost predicate Early(byID: map<string, Requirement>, children: map<string, seq<string>>, ids: seq<string>, h: nat)
    requires Known(byID, children, ids)
  {
    exists v :: Fails(byID, children, ids, v) && v[0] < h
  }

  lemma {:induction false} FailsBelow(byID: map<string, Requirement>, children: map<string, seq<string>>,
                                      ids: seq<string>, h: nat, v: seq<nat>)
    requires Known(byID, children, ids) && h < |ids|
    ensures Fails(byID, children, ids, [h] + v)
       <==> if v == [] then !Passes(byID[ids[h]]) else Fails(byID, children, KidsOf(children, ids[h]), v)
    ensures IsWalk(children, ids, [h] + v) <==> IsWalk(children, KidsOf(children, ids[h]), v)
  {
    assert ([h] + v)[1..] == v;
  }

  function Next(v: seq<nat>): seq<nat>
    requires v != []
  {
    [v[0] + 1] + v[1..]
  }

  lemma {:induction false} FailsNext(byID: map<string, Requirement>, children: map<string, seq<string>>,
                                     ids: seq<string>, v: seq<nat>)
    requires Known(byID, children, ids) && ids != [] && v != []
    ensures Fails(byID, children, ids, Next(v)) <==> Fails(byID, children, ids[1..], v)
    ensures IsWalk(children, ids, Next(v)) <==> IsWalk(children, ids[1..], v)
  {
    assert Next(v)[1..] == v[1..];
  }

  /** A walk that does not begin at the first position is one of the other siblings. */
  lemma {:induction false} Back(v: seq<nat>) returns (u: seq<nat>)
    requires v != [] && v[0] > 0
    ensures u != [] && v == Next(u)
  {
    u := [v[0] - 1] + v[1..];
  }

  /** What stops a walk: an earlier sibling, or something that stops the rest of it. */
  lemma {:induction false} StoppedBelow(byID: map<string, Requirement>, children: map<string, seq<string>>,
                                        ids: seq<string>, h: nat, u: seq<nat>)
    requires Known(byID, children, ids) && h < |ids|
    ensures Stopped(byID, children, ids, [h] + u)
       <==> Early(byID, children, ids, h) || Stopped(byID, children, KidsOf(children, ids[h]), u)
  {
    var w, kids := [h] + u, KidsOf(children, ids[h]);
    assert w[1..] == u;
    if v :| Fails(byID, children, ids, v) && Left(v, w) {
      if v[0] == h {
        var t := v[1..];
        assert v == [h] + t && Left(t, u);
        FailsBelow(byID, children, ids, h, t);
        assert Fails(byID, children, kids, t);
      }
    }
    if v :| Fails(byID, children, ids, v) && v[0] < h {
      assert Left(v, w);
    }
    if v :| Fails(byID, children, kids, v) && Left(v, u) {
      FailsBelow(byID, children, ids, h, v);
      assert ([h] + v)[1..] == v;
      assert Left([h] + v, w);
    }
  }

  /** Nothing fails in the first sibling or below it. */
  ghost predicate FirstPasses(byID: map<string, Requirement>, children: map<string, seq<string>>, ids: seq<string>)
    requires Known(byID, children, ids) && ids != []
  {
    Passes(byID[ids[0]]) && NoneFails(byID, children, KidsOf(children, ids[0]))
  }

  lemma {:induction false} FirstFails(byID: map<string, Requirement>, children: map<string, seq<string>>,
                                      ids: seq<string>)
    requires Known(byID, children, ids) && ids != []
    ensures FirstPasses(byID, children, ids) <==> !Early(byID, children, ids, 1)
  {
    FailsBelow(byID, children, ids, 0, []);
    assert [0] + [] == [0];
    if !FirstPasses(byID, children, ids) && Passes(byID[ids[0]]) {
      var v :| Fails(byID, children, KidsOf(children, ids[0]), v);
      FailsBelow(byID, children, ids, 0, v);
      assert ([0] + v)[0] < 1;
    }
    if v :| Fails(byID, children, ids, v) && v[0] < 1 {
      assert v == [0] + v[1..];
      FailsBelow(byID, children, ids, 0, v[1..]);
    }
  }

  lemma {:induction false} StoppedNext(byID: map<string, Requirement>, children: map<string, seq<string>>,
                                       ids: seq<string>, w: seq<nat>)
    requires Known(byID, children, ids) && ids != [] && w != []
    ensures Stopped(byID, children, ids, Next(w))
       <==> !FirstPasses(byID, children, ids) || Stopped(byID, children, ids[1..], w)
  {
    FirstFails(byID, children, ids);
    assert Next(w)[1..] == w[1..];
    if v :| Fails(byID, children, ids, v) && v[0] < 1 {
      assert Left(v, Next(w));
    }
    if v :| Fails(byID, children, ids, v) && Left(v, Next(w)) {
      if v[0] > 0 {
        var u := Back(v);
        FailsNext(byID, children, ids, u);
        assert u[1..] == v[1..];
        assert Left(u, w);
      } else {
        assert v[0] < 1;
      }
    }
    if v :| Fails(byID, children, ids[1..], v) && Left(v, w) {
      FailsNext(byID, children, ids, v);
      assert Next(v)[1..] == v[1..];
      assert Left(Next(v), Next(w));
    }
  }

  // ------------------------------------------------- the first failing walk

  /** A walk to what fails, before which the search goes to nothing that fails. */
  ghost predicate First(byID: map<string, Requirement>, children: map<string, seq<string>>, ids: seq<string>,
                        w: seq<nat>): (first: bool)
    requires Known(byID, children, ids)
    ensures first ==> w != [] && IsWalk(children, ids, w)
  {
    Fails(byID, children, ids, w) && forall v :: Fails(byID, children, ids, v) ==> !Sooner(v, w)
  }

  lemma {:induction false} FirstBelow(byID: map<string, Requirement>, children: map<string, seq<string>>,
                                      ids: seq<string>, w: seq<nat>)
    requires Known(byID, children, ids) && ids != []
    requires if w == [] then !Passes(byID[ids[0]]) && NoneFails(byID, children, KidsOf(children, ids[0]))
             else First(byID, children, KidsOf(children, ids[0]), w)
    ensures First(byID, children, ids, [0] + w)
    ensures WalkPath(byID, children, ids, [0] + w)
         == [byID[ids[0]]] + WalkPath(byID, children, KidsOf(children, ids[0]), w)
  {
    FailsBelow(byID, children, ids, 0, w);
    assert ([0] + w)[1..] == w;
    forall v | Fails(byID, children, ids, v)
      ensures !Sooner(v, [0] + w)
    {
      if v[0] == 0 {
        assert v == [0] + v[1..];
        FailsBelow(byID, children, ids, 0, v[1..]);
      }
    }
  }

  lemma {:induction false} FirstNext(byID: map<string, Requirement>, children: map<string, seq<string>>,
                                     ids: seq<string>, w: seq<nat>)
    requires Known(byID, children, ids) && ids != [] && FirstPasses(byID, children, ids)
    requires First(byID, children, ids[1..], w)
    ensures First(byID, children, ids, Next(w))
    ensures WalkPath(byID, children, ids, Next(w)) == WalkPath(byID, children, ids[1..], w)
  {
    FirstFails(byID, children, ids);
    FailsNext(byID, children, ids, w);
    assert Next(w)[1..] == w[1..];
    forall v | Fails(byID, children, ids, v)
      ensures !Sooner(v, Next(w))
    {
      assert v[0] >= 1;
      var u := Back(v);
      FailsNext(byID, children, ids, u);
      assert u[1..] == v[1..];
    }
  }

  lemma {:induction false} NoneNext(byID: map<string, Requirement>, children: map<string, seq<string>>,
                                    ids: seq<string>)
    requires Known(byID, children, ids)
    requires ids != [] ==> FirstPasses(byID, children, ids) && NoneFails(byID, children, ids[1..])
    ensures NoneFails(byID, children, ids)
  {
    forall v
      ensures !Fails(byID, children, ids, v)
    {
      if Fails(byID, children, ids, v) {
        FirstFails(byID, children, ids);
        assert v[0] >= 1;
        var u := Back(v);
        FailsNext(byID, children, ids, u);
      }
    }
  }

  /** Where the search ends, for whatever ids, it ends at the first failing walk, or there is none. */
  lemma {:induction false} SearchIsFirst(byID: map<string, Requirement>, children: map<string, seq<string>>,
                                         ids: seq<string>, path: Path, levels: nat)
    requires Known(byID, children, ids)
    ensures var outcome := Search(byID, children, ids, path, levels);
            && (outcome.Nothing? ==> NoneFails(byID, children, ids))
            && (outcome.Found? ==>
                  exists w :: First(byID, children, ids, w)
                              && outcome.path == path + WalkPath(byID, children, ids, w))
    decreases levels, |ids|
  {
    hide NoneFails, First, Fails, WalkPath;
    if ids == [] {
      NoneNext(byID, children, ids);
    } else {
      var r, kids := byID[ids[0]], KidsOf(children, ids[0]);
      if kids == [] {
        NoneNext(byID, children, kids);
      } else if levels > 0 {
        SearchIsFirst(byID, children, kids, path + [r], levels - 1);
      }
      var below := if kids == [] then Nothing
                   else if levels == 0 then Unfinished
                   else Search(byID, children, kids, path + [r], levels - 1);
      if below.Found? {
        var w :| First(byID, children, kids, w) && below.path == path + [r] + WalkPath(byID, children, kids, w);
        FirstBelow(byID, children, ids, w);
        assert path + [r] + WalkPath(byID, children, kids, w) == path + WalkPath(byID, children, ids, [0] + w);
      } else if below.Nothing? {
        ThenNext(byID, children, ids, path, levels);
      }
    }
  }

  /** When nothing fails below the first: the first itself, or the others. */
  lemma {:induction false} ThenNext(byID: map<string, Requirement>, children: map<string, seq<string>>,
                                    ids: seq<string>, path: Path, levels: nat)
    requires Known(byID, children, ids) && ids != [] && NoneFails(byID, children, KidsOf(children, ids[0]))
    ensures var outcome := if Passes(byID[ids[0]]) then Search(byID, children, ids[1..], path, levels)
                           else Found(path + [byID[ids[0]]]);
            && (outcome.Nothing? ==> NoneFails(byID, children, ids))
            && (outcome.Found? ==>
                  exists w :: First(byID, children, ids, w)
                              && outcome.path == path + WalkPath(byID, children, ids, w))
    decreases levels, |ids|, 0
  {
    hide NoneFails, First, Fails, WalkPath, Search;
    var r, rest := byID[ids[0]], ids[1..];
    if Passes(r) {
      SearchIsFirst(byID, children, rest, path, levels);
      var outcome := Search(byID, children, rest, path, levels);
      if outcome.Nothing? {
        NoneNext(byID, children, ids);
      }
      if outcome.Found? {
        var w :| First(byID, children, rest, w) && outcome.path == path + WalkPath(byID, children, rest, w);
        FirstNext(byID, children, ids, w);
      }
    } else {
      FirstBelow(byID, children, ids, []);
      assert WalkPath(byID, children, KidsOf(children, ids[0]), []) == [];
      assert [r] + [] == [r];
    }
  }

  // --------------------------------------------------- when the search ends

  /** Some id is one of these, or comes back. */
  ghost predicate Returns(seen: set<string>, xs: seq<string>)
    decreases |xs|
  {
    xs != [] && (xs[0] in seen || Returns(seen + {xs[0]}, xs[1..]))
  }

  lemma {:induction false} ReturnsMeans(seen: set<string>, xs: seq<string>)
    ensures Returns(seen, xs) <==> !DistinctIds(xs) || exists i :: 0 <= i < |xs| && xs[i] in seen
    decreases |xs|
  {
    if xs != [] {
      var tail := xs[1..];
      ReturnsMeans(seen + {xs[0]}, tail);
      assert forall i :: 0 <= i < |tail| ==> tail[i] == xs[i + 1];
      if !DistinctIds(xs) {
        var i, j :| 0 <= i < j < |xs| && xs[i] == xs[j];
        assert tail[j - 1] == xs[j] && (i > 0 ==> tail[i - 1] == xs[i]);
      }
    }
  }

  lemma ReturnsFrom(start: string, xs: seq<string>)
    ensures Returns({start}, xs) <==> !DistinctIds([start] + xs)
  {
    ReturnsMeans({start}, xs);
    ReturnsMeans({}, [start] + xs);
    assert ([start] + xs)[1..] == xs && {} + {start} == {start};
  }

  /** Every walk that comes to an id again is stopped. */
  ghost predicate ReturnsStopped(byID: map<string, Requirement>, children: map<string, seq<string>>, ids: seq<string>,
                                 seen: set<string>)
    requires Known(byID, children, ids)
  {
    forall w :: IsWalk(children, ids, w) && Returns(seen, WalkIds(children, ids, w)) ==> Stopped(byID, children, ids, w)
  }

  lemma {:induction false} StoppedKids(byID: map<string, Requirement>, children: map<string, seq<string>>,
                                       ids: seq<string>, seen: set<string>)
    requires Known(byID, children, ids) && ids != [] && ReturnsStopped(byID, children, ids, seen)
    ensures ids[0] !in seen
    ensures ReturnsStopped(byID, children, KidsOf(children, ids[0]), seen + {ids[0]})
  {
    var kids := KidsOf(children, ids[0]);
    forall w | IsWalk(children, kids, w)
      ensures Returns(seen, WalkIds(children, ids, [0] + w)) ==> Stopped(byID, children, kids, w)
      ensures WalkIds(children, ids, [0] + w) == [ids[0]] + WalkIds(children, kids, w)
    {
      FailsBelow(byID, children, ids, 0, w);
      StoppedBelow(byID, children, ids, 0, w);
      assert ([0] + w)[1..] == w;
    }
    assert IsWalk(children, kids, []) && !Stopped(byID, children, kids, []);
  }

  lemma {:induction false} StoppedRest(byID: map<string, Requirement>, children: map<string, seq<string>>,
                                       ids: seq<string>, seen: set<string>)
    requires Known(byID, children, ids) && ids != [] && ReturnsStopped(byID, children, ids, seen)
    requires FirstPasses(byID, children, ids)
    ensures ReturnsStopped(byID, children, ids[1..], seen)
  {
    forall w | IsWalk(children, ids[1..], w) && Returns(seen, WalkIds(children, ids[1..], w))
      ensures Stopped(byID, children, ids[1..], w)
    {
      FailsNext(byID, children, ids, w);
      assert Next(w)[1..] == w[1..];
      assert WalkIds(children, ids, Next(w)) == WalkIds(children, ids[1..], w);
      StoppedNext(byID, children, ids, w);
    }
  }

  /** If every walk that comes back is stopped, there are no more levels than ids. */
  lemma {:induction false} SearchEnds(byID: map<string, Requirement>, children: map<string, seq<string>>,
                                      ids: seq<string>, seen: set<string>, path: Path, levels: nat)
    requires Known(byID, children, ids) && ReturnsStopped(byID, children, ids, seen)
    requires |byID.Keys - seen| <= levels
    ensures Search(byID, children, ids, path, levels) != Unfinished
    decreases levels, |ids|
  {
    hide ReturnsStopped, NoneFails;
    if ids != [] {
      var r, kids := byID[ids[0]], KidsOf(children, ids[0]);
      StoppedKids(byID, children, ids, seen);
      assert byID.Keys - seen == byID.Keys - (seen + {ids[0]}) + {ids[0]};
      SearchEnds(byID, children, kids, seen + {ids[0]}, path + [r], levels - 1);
      SearchIsFirst(byID, children, kids, path + [r], levels - 1);
      if kids == [] {
        NoneNext(byID, children, kids);
      }
      if FirstPasses(byID, children, ids) {
        StoppedRest(byID, children, ids, seen);
        SearchEnds(byID, children, ids[1..], seen, path, levels);
      }
    }
  }

  lemma PassedOver(byID: map<string, Requirement>, children: map<string, seq<string>>, ids: seq<string>, path: Path,
                   levels: nat)
    requires Known(byID, children, ids) && ids != [] && FirstPasses(byID, children, ids)
    ensures Search(byID, children, ids, path, levels) == Unfinished
            || Search(byID, children, ids, path, levels) == Search(byID, children, ids[1..], path, levels)
  {
    hide NoneFails;
    if levels > 0 {
      NeverFound(byID, children, KidsOf(children, ids[0]), path + [byID[ids[0]]], levels - 1);
    }
  }

  lemma DeepBelow(byID: map<string, Requirement>, children: map<string, seq<string>>, ids: seq<string>, path: Path,
                  levels: nat)
    requires Known(byID, children, ids) && ids != [] && KidsOf(children, ids[0]) != []
    requires levels > 0 ==>
               Search(byID, children, KidsOf(children, ids[0]), path + [byID[ids[0]]], levels - 1) == Unfinished
    ensures Search(byID, children, ids, path, levels) == Unfinished
  {
  }

  /** A long walk that nothing stops needs as many levels. */
  lemma {:induction false} TooDeep(byID: map<string, Requirement>, children: map<string, seq<string>>,
                                   ids: seq<string>, path: Path, levels: nat, w: seq<nat>)
    requires Known(byID, children, ids) && IsWalk(children, ids, w) && |w| >= levels + 2
    requires !Stopped(byID, children, ids, w)
    ensures Search(byID, children, ids, path, levels) == Unfinished
    decreases levels, |ids|
  {
    hide Stopped, FirstPasses, Search, Early;
    if w[0] == 0 {
      assert w == [0] + w[1..];
      assert w[1] < |KidsOf(children, ids[0])|;
      StoppedBelow(byID, children, ids, 0, w[1..]);
      if levels > 0 {
        TooDeep(byID, children, KidsOf(children, ids[0]), path + [byID[ids[0]]], levels - 1, w[1..]);
      }
      DeepBelow(byID, children, ids, path, levels);
    } else {
      var u := Back(w);
      FailsNext(byID, children, ids, u);
      StoppedNext(byID, children, ids, u);
      TooDeep(byID, children, ids[1..], path, levels, u);
      PassedOver(byID, children, ids, path, levels);
    }
  }

  lemma NeverFound(byID: map<string, Requirement>, children: map<string, seq<string>>, ids: seq<string>, path: Path,
                   levels: nat)
    requires Known(byID, children, ids) && NoneFails(byID, children, ids)
    ensures !Search(byID, children, ids, path, levels).Found?
  {
    hide Search;
    SearchIsFirst(byID, children, ids, path, levels);
  }

  /** The list of children in which a walk arrives. */
  ghost function ListAt(children: map<string, seq<string>>, ids: seq<string>, w: seq<nat>): seq<string>
    requires IsWalk(children, ids, w)
    decreases |w|
  {
    if w == [] then ids else ListAt(children, KidsOf(children, ids[w[0]]), w[1..])
  }

  lemma {:induction false} WalkJoins(byID: map<string, Requirement>, children: map<string, seq<string>>,
                                     ids: seq<string>, a: seq<nat>, b: seq<nat>)
    requires Known(byID, children, ids) && IsWalk(children, ids, a)
    ensures Known(byID, children, ListAt(children, ids, a))
    ensures IsWalk(children, ids, a + b) <==> IsWalk(children, ListAt(children, ids, a), b)
    ensures IsWalk(children, ids, a + b) ==>
              ListAt(children, ids, a + b) == ListAt(children, ListAt(children, ids, a), b)
    ensures Stopped(byID, children, ids, a + b)
       <==> Stopped(byID, children, ids, a) || Stopped(byID, children, ListAt(children, ids, a), b)
    decreases |a|
  {
    hide Stopped, Early;
    if a == [] {
      assert a + b == b;
      NothingStops(byID, children, ids);
    } else {
      var kids := KidsOf(children, ids[a[0]]);
      assert (a + b)[1..] == a[1..] + b;
      assert a + b == [a[0]] + (a[1..] + b) && a == [a[0]] + a[1..];
      WalkJoins(byID, children, kids, a[1..], b);
      StoppedBelow(byID, children, ids, a[0], a[1..]);
      StoppedBelow(byID, children, ids, a[0], a[1..] + b);
    }
  }

  lemma NothingStops(byID: map<string, Requirement>, children: map<string, seq<string>>, ids: seq<string>)
    requires Known(byID, children, ids)
    ensures !Stopped(byID, children, ids, [])
  {
  }

  lemma {:induction false} WalkSplits(children: map<string, seq<string>>, start: string, w: seq<nat>, k: nat)
    requires IsWalk(children, KidsOf(children, start), w) && k <= |w|
    ensures IsWalk(children, KidsOf(children, start), w[..k])
    ensures ListAt(children, KidsOf(children, start), w[..k])
         == KidsOf(children, ([start] + WalkIds(children, KidsOf(children, start), w))[k])
    decreases k
  {
    if k > 0 {
      var ids := KidsOf(children, start);
      assert w[..k][1..] == w[1..][..k - 1];
      WalkSplits(children, ids[w[0]], w[1..], k - 1);
    }
  }

  /** A loop can be gone round as often as one likes, and what does not stop it once never does. */
  lemma {:induction false} Rounds(byID: map<string, Requirement>, children: map<string, seq<string>>, ids: seq<string>,
                                  loop: seq<nat>, n: nat) returns (w: seq<nat>)
    requires Known(byID, children, ids) && loop != [] && IsWalk(children, ids, loop)
    requires ListAt(children, ids, loop) == ids && !Stopped(byID, children, ids, loop)
    ensures IsWalk(children, ids, w) && !Stopped(byID, children, ids, w) && |w| >= n
  {
    hide Stopped;
    if n == 0 {
      w := loop;
    } else {
      var u := Rounds(byID, children, ids, loop, n - 1);
      WalkJoins(byID, children, ids, loop, u);
      w := loop + u;
    }
  }

  /** A walk that comes to an id again has a loop. */
  lemma {:induction false} HasLoop(children: map<string, seq<string>>, start: string, w: seq<nat>)
      returns (pre: seq<nat>, loop: seq<nat>, rest: seq<nat>)
    requires IsWalk(children, KidsOf(children, start), w)
    requires !DistinctIds([start] + WalkIds(children, KidsOf(children, start), w))
    ensures w == pre + loop + rest && loop != []
    ensures IsWalk(children, KidsOf(children, start), pre) && IsWalk(children, KidsOf(children, start), pre + loop)
    ensures ListAt(children, KidsOf(children, start), pre + loop) == ListAt(children, KidsOf(children, start), pre)
  {
    hide IsWalk, ListAt, WalkIds;
    var all := [start] + WalkIds(children, KidsOf(children, start), w);
    var i, j :| 0 <= i < j < |all| && all[i] == all[j];
    pre, loop, rest := w[..i], w[i..j], w[j..];
    assert w[..j] == pre + loop;
    WalkSplits(children, start, w, i);
    WalkSplits(children, start, w, j);
  }

  /** When it is not stopped, it can be made as long as one likes. */
  lemma {:induction false} LongWalk(byID: map<string, Requirement>, children: map<string, seq<string>>, start: string,
                                    w: seq<nat>, n: nat) returns (longer: seq<nat>)
    requires Known(byID, children, KidsOf(children, start)) && IsWalk(children, KidsOf(children, start), w)
    requires !DistinctIds([start] + WalkIds(children, KidsOf(children, start), w))
    requires !Stopped(byID, children, KidsOf(children, start), w)
    ensures IsWalk(children, KidsOf(children, start), longer) && |longer| >= n
    ensures !Stopped(byID, children, KidsOf(children, start), longer)
  {
    var ids := KidsOf(children, start);
    var pre, loop, rest := HasLoop(children, start, w);
    hide Stopped, IsWalk, ListAt, DistinctIds, WalkIds, KidsOf;
    WalkJoins(byID, children, ids, pre + loop, rest);
    WalkJoins(byID, children, ids, pre, loop);
    var more := Rounds(byID, children, ListAt(children, ids, pre), loop, n);
    WalkJoins(byID, children, ids, pre, more);
    longer := pre + more;
  }

  // ------------------------------------------------------------ for any list

  ghost function Roots(reqs: seq<Requirement>): (ids: seq<string>)
    ensures Known(ByID(reqs), Children(reqs), ids)
  {
    IsIndexed(reqs);
    KidsOf(Children(reqs), "")
  }

  ghost function SearchAll(reqs: seq<Requirement>, levels: nat): Outcome {
    IsIndexed(reqs);
    Search(ByID(reqs), Children(reqs), Roots(reqs), [], levels)
  }

  /** Every walk from the roots that comes back to an id has something that fails to its left. */
  ghost predicate StoppedInTime(reqs: seq<Requirement>) {
    forall w :: IsWalk(Children(reqs), Roots(reqs), w)
                && !DistinctIds([""] + WalkIds(Children(reqs), Roots(reqs), w))
                ==> Stopped(ByID(reqs), Children(reqs), Roots(reqs), w)
  }

  /** The search ends exactly when every walk that comes back to an id is stopped before, and then within as many
      levels as there are requirements. */
  lemma EndsExactly(reqs: seq<Requirement>)
    ensures (exists levels: nat :: SearchAll(reqs, levels) != Unfinished) <==> StoppedInTime(reqs)
    ensures StoppedInTime(reqs) ==> SearchAll(reqs, |reqs|) != Unfinished
  {
    hide Search, Stopped, IsWalk, DistinctIds;
    var byID, children, roots := ByID(reqs), Children(reqs), Roots(reqs);
    IsIndexed(reqs);
    if StoppedInTime(reqs) {
      forall w | IsWalk(children, roots, w)
        ensures Returns({""}, WalkIds(children, roots, w)) ==> Stopped(byID, children, roots, w)
      {
        ReturnsFrom("", WalkIds(children, roots, w));
      }
      SizeWithout(byID.Keys, {""});
      SearchEnds(byID, children, roots, {""}, [], |reqs|);
      assert SearchAll(reqs, |reqs|) != Unfinished;
    } else {
      var w :| IsWalk(children, roots, w) && !DistinctIds([""] + WalkIds(children, roots, w))
               && !Stopped(byID, children, roots, w);
      forall levels: nat
        ensures SearchAll(reqs, levels) == Unfinished
      {
        var longer := LongWalk(byID, children, "", w, levels + 2);
        TooDeep(byID, children, roots, [], levels, longer);
      }
    }
  }

  lemma SizeWithout(a: set<string>, b: set<string>)
    ensures |a - b| <= |a|
  {
    assert a == (a - b) + (a * b);
  }

  /** What the program returns, for any list: the first failing walk, or nothing when no walk from a root fails. */
  ghost predicate FirstWalk(reqs: seq<Requirement>, found: Option<Requirement>, path: Path) {
    match found
    case None => path == [] && NoneFails(ByID(reqs), Children(reqs), Roots(reqs))
    case Some(r) =>
      exists w :: && First(ByID(reqs), Children(reqs), Roots(reqs), w)
                  && path == WalkPath(ByID(reqs), Children(reqs), Roots(reqs), w) && r == LastOf(path)
  }

  lemma FirstIsReported(reqs: seq<Requirement>, found: Option<Requirement>, path: Path)
    requires Reports(found, path, SearchAll(reqs, |reqs|))
    ensures FirstWalk(reqs, found, path)
  {
    hide Search, First, NoneFails;
    var byID, children, roots := ByID(reqs), Children(reqs), Roots(reqs);
    IsIndexed(reqs);
    SearchIsFirst(byID, children, roots, [], |reqs|);
    if found.Some? {
      var w :| First(byID, children, roots, w) && path == [] + WalkPath(byID, children, roots, w);
      assert path == WalkPath(byID, children, roots, w);
    }
  }

  // ------------------------------------------------------- walks and chains

  lemma {:induction false} WalkDescends(reqs: seq<Requirement>, byID: map<string, Requirement>,
                                        children: map<string, seq<string>>, start: string, w: seq<nat>)
    requires Indexed(reqs, byID, children) && IsWalk(children, KidsOf(children, start), w)
    ensures From(reqs, start, WalkIds(children, KidsOf(children, start), w))
    decreases |w|
  {
    hide Indexed, IsChildId;
    if w != [] {
      var ids := KidsOf(children, start);
      var id := ids[w[0]];
      KidsAreChildren(reqs, byID, children, start);
      WalkDescends(reqs, byID, children, id, w[1..]);
      assert id in ids;
      assert ChildAt(reqs, start, [id], 0);
      FromJoins(reqs, start, [id], WalkIds(children, KidsOf(children, id), w[1..]));
    }
  }

  lemma {:induction false} DescentWalks(reqs: seq<Requirement>, byID: map<string, Requirement>,
                                        children: map<string, seq<string>>, start: string, xs: seq<string>)
      returns (w: seq<nat>)
    requires Indexed(reqs, byID, children) && From(reqs, start, xs)
    ensures IsWalk(children, KidsOf(children, start), w) && WalkIds(children, KidsOf(children, start), w) == xs
    decreases |xs|
  {
    hide Indexed, IsChildId;
    if xs == [] {
      w := [];
    } else {
      KidsAreChildren(reqs, byID, children, start);
      assert ChildAt(reqs, start, xs, 0);
      FromParts(reqs, start, xs, 1);
      assert xs[..1] == [xs[0]];
      var k: nat :| k < |KidsOf(children, start)| && KidsOf(children, start)[k] == xs[0];
      var u := DescentWalks(reqs, byID, children, xs[0], xs[1..]);
      w := [k] + u;
      assert w[1..] == u;
    }
  }

  /** In particular the search ends whenever no chain repeats an id; where every requirement passes, only then. */
  lemma NoRepeatEnds(reqs: seq<Requirement>)
    ensures NoRepeat(reqs) ==> StoppedInTime(reqs)
    ensures (forall r :: r in reqs ==> r.status == "pass") ==> (StoppedInTime(reqs) <==> NoRepeat(reqs))
  {
    hide Stopped, Indexed, DistinctIds;
    var byID, children, roots := ByID(reqs), Children(reqs), Roots(reqs);
    IsIndexed(reqs);
    forall w | IsWalk(children, roots, w)
      ensures Descends(reqs, WalkIds(children, roots, w))
    {
      WalkDescends(reqs, byID, children, "", w);
    }
    if (forall r :: r in reqs ==> Passes(r)) && StoppedInTime(reqs) {
      forall ids | Descends(reqs, ids)
        ensures DistinctIds([""] + ids)
      {
        var w := DescentWalks(reqs, byID, children, "", ids);
        if Stopped(byID, children, roots, w) {
          AllPassing(reqs, w);
        }
      }
    }
  }

  lemma AllPassing(reqs: seq<Requirement>, w: seq<nat>)
    requires forall r :: r in reqs ==> Passes(r)
    ensures !Stopped(ByID(reqs), Children(reqs), Roots(reqs), w)
  {
    IsIndexed(reqs);
    if v :| Fails(ByID(reqs), Children(reqs), Roots(reqs), v) && Left(v, w) {
      FailsAtLast(reqs, ByID(reqs), Children(reqs), Roots(reqs), v);
    }
  }

  lemma {:induction false} FailsAtLast(reqs: seq<Requirement>, byID: map<string, Requirement>,
                                       children: map<string, seq<string>>, ids: seq<string>, v: seq<nat>)
    requires Known(byID, children, ids) && Fails(byID, children, ids, v)
    ensures exists id :: id in byID && !Passes(byID[id])
    decreases |v|
  {
    if |v| > 1 {
      FailsAtLast(reqs, byID, children, KidsOf(children, ids[v[0]]), v[1..]);
    }
  }

  // ---------------------------------------------------------- failing inputs

  lemma {:induction false} ChildrenJoin(a: seq<Requirement>, b: seq<Requirement>, parent: string)
    ensures ChildrenIn(a + b, parent) == ChildrenIn(a, parent) + ChildrenIn(b, parent)
  {
    hide ChildrenIn;
    if b == [] {
      NoChildren([], parent);
      assert a + b == a;
    } else {
      var init, r := b[..|b| - 1], b[|b| - 1];
      assert b == init + [r] && a + b == a + init + [r];
      ChildrenJoin(a, init, parent);
      ChildrenSnoc(a + init, r, parent);
      ChildrenSnoc(init, r, parent);
    }
  }

  lemma {:induction false} NoChildren(reqs: seq<Requirement>, parent: string)
    requires forall r :: r in reqs ==> r.parent != parent
    ensures ChildrenIn(reqs, parent) == []
  {
    if reqs != [] {
      NoChildren(reqs[..|reqs| - 1], parent);
    }
  }

  lemma FirstChild(reqs: seq<Requirement>, before: seq<Requirement>, r: Requirement, rest: seq<Requirement>)
    requires reqs == before + [r] + rest && forall b :: b in before ==> b.parent != r.parent
    ensures KidsOf(Children(reqs), r.parent) != [] && KidsOf(Children(reqs), r.parent)[0] == r.id
  {
    IsIndexed(reqs);
    IndexedCloses(reqs, ByID(reqs), Children(reqs));
    NoChildren(before, r.parent);
    ChildrenSnoc(before, r, r.parent);
    ChildrenJoin(before + [r], rest, r.parent);
    assert ChildrenIn(reqs, r.parent)[0] == r;
  }

  /** There is nothing to the left of the first positions. */
  lemma {:induction false} NotLeftmost(v: seq<nat>, w: seq<nat>)
    requires forall i :: 0 <= i < |w| ==> w[i] == 0
    ensures !Left(v, w)
    decreases |w|
  {
    if v != [] && w != [] {
      NotLeftmost(v[1..], w[1..]);
    }
  }

  /** When the first root has a child of its own id, the first of its children, the search never ends, whatever passes
      or fails in the list. */
  lemma RepeatedIdNeverEnds(root: Requirement, again: Requirement, rest: seq<Requirement>, levels: nat)
    requires root.parent == "" && again.id == root.id && again.parent == root.id
    ensures SearchAll([root, again] + rest, levels) == Unfinished
  {
    hide SearchAll, ByID, Children;
    var reqs := [root, again] + rest;
    var children, roots := Children(reqs), Roots(reqs);
    FirstChild(reqs, [], root, [again] + rest);
    if root.id != "" {
      FirstChild(reqs, [root], again, rest);
    }
    var w: seq<nat> := [0, 0];
    assert w[1..] == [0] && w[1..][1..] == [];
    assert IsWalk(children, roots, w);
    assert ([""] + WalkIds(children, roots, w))[1] == ([""] + WalkIds(children, roots, w))[2];
    forall v
      ensures !Left(v, w)
    {
      NotLeftmost(v, w);
    }
    EndsExactly(reqs);
  }

  /** When the first root fails and has no children, it is found, whatever repeats in the list. */
  lemma FailingRootIsFound(root: Requirement, rest: seq<Requirement>)
    requires root.parent == "" && root.id != "" && root.status != "pass"
    requires forall r :: r in rest ==> r.id != root.id && r.parent != root.id
    ensures SearchAll([root] + rest, 0) == Found([root])
  {
    var reqs := [root] + rest;
    IsIndexed(reqs);
    IndexedCloses(reqs, ByID(reqs), Children(reqs));
    FirstChild(reqs, [], root, rest);
    NoChildren(reqs, root.id);
    assert root in reqs;
  }
}
