/** Deploy state in memory, where it is flat, and on disk, where it is grouped and has one file per business process. */
module Slices {
  import opened Names
  import opened Options

  /** A deployment's configuration; None is a key that is not there, rest is whatever else it holds. */
  datatype Conf = Conf(context: Option<string>, stage: Option<string>, sourceCommit: Option<string>,
                       relativePath: Option<string>, rest: string)

  datatype Item = Item(id: string, conf: Conf)

  datatype Node = Node(commit: Option<string>, deployments: map<string, Conf>)

  /** Contexts, and in each the stages. */
  type Tree = map<string, map<string, Node>>

  datatype Section = Firewall | Backups | Secrets | DisasterRecovery | StagingGate | Audits

  /** The maps keyed by business process. */
  type Sections = map<Section, map<string, string>>

  /** The whole workspace: the flat deployments in the order of the dictionary, and the tree they were read from. */
  datatype Workspace = Workspace(items: seq<Item>, tree: Tree, sections: Sections)

  datatype File = File(tree: Tree, sections: Sections)

  ghost predicate Distinct(items: seq<Item>) {
    forall i, j :: 0 <= i < j < |items| ==> items[i].id != items[j].id
  }

  // ---------------------------------------------------------------- grouping

  predicate Set(value: Option<string>) {
    value.Some? && value.value != ""
  }

  function ContextOf(conf: Conf): (ctx: string)
    ensures ctx != ""
  {
    if Set(conf.context) then conf.context.value else "ungrouped"
  }

  function StageOf(conf: Conf): (stage: string)
    ensures stage != ""
  {
    if Set(conf.stage) then conf.stage.value else "production"
  }

  function StagesAt(tree: Tree, ctx: string): map<string, Node> {
    if ctx in tree then tree[ctx] else map[]
  }

  function NodeAt(tree: Tree, ctx: string, stage: string): Option<Node> {
    if stage in StagesAt(tree, ctx) then Some(StagesAt(tree, ctx)[stage]) else None
  }

  function CommitAt(tree: Tree, ctx: string, stage: string): Option<string> {
    match NodeAt(tree, ctx, stage)
    case None => None
    case Some(node) => node.commit
  }

  function DeploymentsAt(tree: Tree, ctx: string, stage: string): map<string, Conf> {
    match NodeAt(tree, ctx, stage)
    case None => map[]
    case Some(node) => node.deployments
  }

  function Put(tree: Tree, ctx: string, stage: string, node: Node): Tree {
    tree[ctx := StagesAt(tree, ctx)[stage := node]]
  }

  /** One deployment put into its group; its own commit counts before one the group has, and that before the old
      tree's. */
  function Added(tree: Tree, item: Item, existing: Tree): Tree {
    var ctx, stage := ContextOf(item.conf), StageOf(item.conf);
    var known := CommitAt(tree, ctx, stage);
    var commit :=
      if Set(item.conf.sourceCommit) then item.conf.sourceCommit
      else if known.None? then CommitAt(existing, ctx, stage)
      else known;
    Put(tree, ctx, stage, Node(commit, DeploymentsAt(tree, ctx, stage)[item.id := item.conf]))
  }

  function Grouped(items: seq<Item>, existing: Tree): Tree {
    if items == [] then map[] else Added(Grouped(items[..|items| - 1], existing), items[|items| - 1], existing)
  }

  method FlatToTree(items: seq<Item>, existing: Tree) returns (tree: Tree)
    ensures tree == Grouped(items, existing)
  {
    tree := map[];
    for i := 0 to |items|
      invariant tree == Grouped(items[..i], existing)
    {
      assert items[..i + 1][..i] == items[..i];
      tree := AddDeployment(tree, items[i], existing);
    }
    assert items[..|items|] == items;
  }

  method AddDeployment(before: Tree, item: Item, existing: Tree) returns (tree: Tree)
    ensures tree == Added(before, item, existing)
  {
    tree := before;
    var conf := item.conf;
    var ctx, stage := ContextOf(conf), StageOf(conf);
    if ctx !in tree {
      tree := tree[ctx := map[]];
    }
    var stages := tree[ctx];
    var node := if stage in stages then stages[stage] else Node(None, map[]);
    if Set(conf.sourceCommit) {
      node := node.(commit := conf.sourceCommit);
    } else if CommitAt(existing, ctx, stage).Some? && node.commit.None? {
      node := node.(commit := CommitAt(existing, ctx, stage));
    }
    node := node.(deployments := node.deployments[item.id := conf]);
    tree := tree[ctx := stages[stage := node]];
  }

  // -------------------------------------------------------------- flattening

  datatype Slot = Slot(context: string, stage: string, id: string)

  predicate InTree(tree: Tree, slot: Slot) {
    slot.id in DeploymentsAt(tree, slot.context, slot.stage)
  }

  /** The configuration as it is read: the group supplies what is missing. */
  function Hydrated(conf: Conf, ctx: string, stage: string): Conf {
    conf.(context := if conf.context.Some? then conf.context else Some(ctx),
          stage := if conf.stage.Some? then conf.stage else Some(if stage == "production" then "" else stage))
  }

  /** The order in which the nested dictionaries are gone through. */
  ghost predicate Walks(order: seq<Slot>, tree: Tree) {
    && (forall i :: 0 <= i < |order| ==> InTree(tree, order[i]))
    && (forall slot :: InTree(tree, slot) ==> slot in order)
  }

  function Flat(tree: Tree, order: seq<Slot>): map<string, Conf>
    requires forall i :: 0 <= i < |order| ==> InTree(tree, order[i])
  {
    if order == [] then map[]
    else
      var before, slot := order[..|order| - 1], order[|order| - 1];
      assert InTree(tree, slot) && forall i :: 0 <= i < |before| ==> before[i] == order[i];
      Flat(tree, before)[slot.id :=
        Hydrated(DeploymentsAt(tree, slot.context, slot.stage)[slot.id], slot.context, slot.stage)]
  }

  lemma FlatSnoc(tree: Tree, order: seq<Slot>, slot: Slot)
    requires InTree(tree, slot) && forall i :: 0 <= i < |order| ==> InTree(tree, order[i])
    ensures forall i :: 0 <= i < |order + [slot]| ==> InTree(tree, (order + [slot])[i])
    ensures Flat(tree, order + [slot])
         == Flat(tree, order)[slot.id :=
              Hydrated(DeploymentsAt(tree, slot.context, slot.stage)[slot.id], slot.context, slot.stage)]
  {
    assert (order + [slot])[..|order|] == order;
  }

  ghost predicate NoDuplicates(s: seq<string>) {
    forall i, j :: 0 <= i < j < |s| ==> s[i] != s[j]
  }

  /** Where a name first is. */
  function Place(s: seq<string>, x: string): (k: nat)
    ensures k <= |s| && (k < |s| <==> x in s) && (k < |s| ==> s[k] == x)
  {
    if s == [] then 0 else if s[0] == x then 0 else 1 + Place(s[1..], x)
  }

  lemma {:induction false} PlaceOf(s: seq<string>, k: nat)
    requires NoDuplicates(s) && k < |s|
    ensures Place(s, s[k]) == k
  {
    if k > 0 {
      assert s[0] != s[k];
      PlaceOf(s[1..], k - 1);
    }
  }

  /** The deployments of earlier contexts are gone through first. */
  ghost predicate Follows(walk: seq<Slot>, contexts: seq<string>) {
    forall i, j :: 0 <= i < j < |walk| ==> Place(contexts, walk[i].context) <= Place(contexts, walk[j].context)
  }

  /** contexts are the keys of the outer dictionary in their order. */
  method TreeToFlat(tree: Tree, contexts: seq<string>) returns (flat: map<string, Conf>)
    requires NoDuplicates(contexts) && forall ctx :: ctx in contexts <==> ctx in tree
    ensures exists walk :: Walks(walk, tree) && Follows(walk, contexts) && flat == Flat(tree, walk)
  {
    flat := map[];
    ghost var walk: seq<Slot> := [];
    assert Walked(tree, contexts, 0, walk) && flat == Flat(tree, walk);
    hide Place, InTree, Flat, Walked;
    for k := 0 to |contexts|
      invariant Walked(tree, contexts, k, walk) && flat == Flat(tree, walk)
    {
      ghost var part;
      flat, part := FlattenContext(tree, contexts[k], flat, walk);
      WalkedMore(tree, contexts, k, walk, part);
      walk := walk + part;
    }
    WalkedAll(tree, contexts, walk);
  }

  /** The walk through the first k contexts. */
  ghost predicate Walked(tree: Tree, contexts: seq<string>, k: nat, walk: seq<Slot>) {
    && (forall i :: 0 <= i < |walk| ==> InTree(tree, walk[i]))
    && (forall i :: 0 <= i < |walk| ==> Place(contexts, walk[i].context) < k)
    && (forall slot :: InTree(tree, slot) && Place(contexts, slot.context) < k ==> slot in walk)
    && Follows(walk, contexts)
  }

  lemma WalkedMore(tree: Tree, contexts: seq<string>, k: nat, walk: seq<Slot>, part: seq<Slot>)
    requires NoDuplicates(contexts) && k < |contexts| && Walked(tree, contexts, k, walk)
    requires forall i :: 0 <= i < |part| ==> part[i].context == contexts[k]
    requires forall i :: 0 <= i < |walk + part| ==> InTree(tree, (walk + part)[i])
    requires forall slot :: InTree(tree, slot) && slot.context == contexts[k] ==> slot in part
    ensures Walked(tree, contexts, k + 1, walk + part)
  {
    hide Place, InTree;
    PlaceOf(contexts, k);
    FollowsMore(walk, part, contexts, k);
  }

  lemma WalkedAll(tree: Tree, contexts: seq<string>, walk: seq<Slot>)
    requires Walked(tree, contexts, |contexts|, walk) && forall ctx :: ctx in contexts <==> ctx in tree
    ensures Walks(walk, tree)
  {
    hide Place;
  }

  lemma FollowsMore(walk: seq<Slot>, part: seq<Slot>, contexts: seq<string>, k: nat)
    requires Follows(walk, contexts) && forall i :: 0 <= i < |walk| ==> Place(contexts, walk[i].context) < k
    requires forall i :: 0 <= i < |part| ==> Place(contexts, part[i].context) == k
    ensures Follows(walk + part, contexts)
    ensures forall i :: 0 <= i < |walk + part| ==> Place(contexts, (walk + part)[i].context) < k + 1
  {
    forall i | 0 <= i < |walk + part|
      ensures Place(contexts, (walk + part)[i].context) <= k
      ensures i >= |walk| ==> Place(contexts, (walk + part)[i].context) == k
    {
      if i >= |walk| {
        assert (walk + part)[i] == part[i - |walk|];
      }
    }
  }

  /** The stages of one context. */
  method FlattenContext(tree: Tree, ctx: string, soFar: map<string, Conf>, ghost before: seq<Slot>)
      returns (flat: map<string, Conf>, ghost part: seq<Slot>)
    requires ctx in tree && forall i :: 0 <= i < |before| ==> InTree(tree, before[i])
    requires soFar == Flat(tree, before)
    ensures forall i :: 0 <= i < |part| ==> part[i].context == ctx
    ensures forall i :: 0 <= i < |before + part| ==> InTree(tree, (before + part)[i])
    ensures forall slot :: InTree(tree, slot) && slot.context == ctx ==> slot in part
    ensures flat == Flat(tree, before + part)
  {
    flat, part := soFar, [];
    assert before + part == before;
    var stages := tree[ctx].Keys;
    while stages != {}
      invariant stages <= tree[ctx].Keys
      invariant forall i :: 0 <= i < |part| ==> part[i].context == ctx
      invariant forall i :: 0 <= i < |before + part| ==> InTree(tree, (before + part)[i])
      invariant forall slot :: InTree(tree, slot) && slot.context == ctx && slot.stage !in stages ==> slot in part
      invariant flat == Flat(tree, before + part)
      decreases stages
    {
      var stage :| stage in stages;
      stages := stages - {stage};
      ghost var more;
      flat, more := FlattenNode(tree, ctx, stage, flat, before + part);
      assert before + (part + more) == before + part + more;
      part := part + more;
    }
  }

  method FlattenNode(tree: Tree, ctx: string, stage: string, soFar: map<string, Conf>, ghost before: seq<Slot>)
      returns (flat: map<string, Conf>, ghost more: seq<Slot>)
    requires ctx in tree && stage in tree[ctx]
    requires forall i :: 0 <= i < |before| ==> InTree(tree, before[i])
    requires soFar == Flat(tree, before)
    ensures forall i :: 0 <= i < |more| ==> more[i].context == ctx
    ensures forall i :: 0 <= i < |before + more| ==> InTree(tree, (before + more)[i])
    ensures forall id :: id in tree[ctx][stage].deployments ==> Slot(ctx, stage, id) in more
    ensures flat == Flat(tree, before + more)
  {
    flat, more := soFar, [];
    assert before + more == before;
    var deployments := tree[ctx][stage].deployments;
    var ids := deployments.Keys;
    while ids != {}
      invariant ids <= deployments.Keys
      invariant forall i :: 0 <= i < |more| ==> more[i].context == ctx
      invariant forall i :: 0 <= i < |before + more| ==> InTree(tree, (before + more)[i])
      invariant forall id :: id in deployments && id !in ids ==> Slot(ctx, stage, id) in more
      invariant flat == Flat(tree, before + more)
      decreases ids
    {
      var id :| id in ids;
      ids := ids - {id};
      var c := deployments[id];
      if c.context.None? {
        c := c.(context := Some(ctx));
      }
      if c.stage.None? {
        c := c.(stage := Some(if stage == "production" then "" else stage));
      }
      FlatSnoc(tree, before + more, Slot(ctx, stage, id));
      flat := flat[id := c];
      assert before + (more + [Slot(ctx, stage, id)]) == before + more + [Slot(ctx, stage, id)];
      more := more + [Slot(ctx, stage, id)];
    }
  }

  // ---------------------------------------------------- the business process

  /** str.split("/") after backslashes have become slashes. */
  function Parts(path: string): (parts: seq<string>)
    ensures parts != []
  {
    if path == "" then [""]
    else
      var rest := Parts(path[1..]);
      if path[0] == '/' || path[0] == '\\' then [""] + rest else [[path[0]] + rest[0]] + rest[1..]
  }

  /** copies/<copy>/<bp>/<automation>, or <bp>/<automation>; sanitize is how names are made into slugs. */
  function BpFromRelativePath(sanitize: string -> string, rel: Option<string>): string {
    if !Set(rel) then ""
    else
      var parts := Parts(rel.value);
      var tail := if |parts| >= 2 && parts[0] == "copies" then parts[2..] else parts;
      if |tail| >= 2 then sanitize(tail[0]) else ""
  }

  function DeploymentBp(sanitize: string -> string, conf: Conf, fallback: string): string {
    var raw := BpFromRelativePath(sanitize, conf.relativePath);
    if raw != "" then raw else fallback
  }

  /** The first deployment of a context, in the order of the dictionary, decides for all of it. */
  function BpOfContext(sanitize: string -> string, items: seq<Item>, ctx: string): string {
    if items == [] then ctx
    else if ContextOf(items[0].conf) == ctx then DeploymentBp(sanitize, items[0].conf, ctx)
    else BpOfContext(sanitize, items[1..], ctx)
  }

  ghost predicate HasContext(items: seq<Item>, ctx: string) {
    exists i :: 0 <= i < |items| && ContextOf(items[i].conf) == ctx
  }

  lemma {:induction false} BpOfContextSnoc(sanitize: string -> string, items: seq<Item>, item: Item, ctx: string)
    ensures BpOfContext(sanitize, items + [item], ctx)
         == if HasContext(items, ctx) then BpOfContext(sanitize, items, ctx)
            else if ContextOf(item.conf) == ctx then DeploymentBp(sanitize, item.conf, ctx)
            else ctx
  {
    if items == [] {
      assert [item][1..] == [];
    } else {
      assert (items + [item])[1..] == items[1..] + [item];
      BpOfContextSnoc(sanitize, items[1..], item, ctx);
      if HasContext(items, ctx) && ContextOf(items[0].conf) != ctx {
        var i :| 0 <= i < |items| && ContextOf(items[i].conf) == ctx;
        assert items[1..][i - 1] == items[i];
      }
    }
  }

  /** The contexts appear in the tree in the order of their first deployments, which stand first in them. */
  method ContextToBp(sanitize: string -> string, items: seq<Item>) returns (out: map<string, string>)
    ensures forall ctx :: ctx in out <==> HasContext(items, ctx)
    ensures forall ctx :: ctx in out ==> out[ctx] == BpOfContext(sanitize, items, ctx)
  {
    out := map[];
    for i := 0 to |items|
      invariant forall ctx :: ctx in out <==> HasContext(items[..i], ctx)
      invariant forall ctx :: ctx in out ==> out[ctx] == BpOfContext(sanitize, items[..i], ctx)
    {
      assert items[..i + 1] == items[..i] + [items[i]];
      forall ctx {
        BpOfContextSnoc(sanitize, items[..i], items[i], ctx);
      }
      HasContextSnoc(items, i);
      var ctx := ContextOf(items[i].conf);
      if ctx !in out {
        out := out[ctx := DeploymentBp(sanitize, items[i].conf, ctx)];
      }
    }
    assert items[..|items|] == items;
  }

  lemma HasContextSnoc(items: seq<Item>, i: nat)
    requires i < |items|
    ensures forall ctx ::
      HasContext(items[..i + 1], ctx) <==> HasContext(items[..i], ctx) || ctx == ContextOf(items[i].conf)
  {
    forall ctx
      ensures HasContext(items[..i + 1], ctx) <==> HasContext(items[..i], ctx) || ctx == ContextOf(items[i].conf)
    {
      if HasContext(items[..i], ctx) {
        var j :| 0 <= j < i && ContextOf(items[..i][j].conf) == ctx;
        assert items[..i + 1][j] == items[..i][j];
      }
      if ctx == ContextOf(items[i].conf) {
        assert items[..i + 1][i] == items[i];
      }
      if HasContext(items[..i + 1], ctx) && ctx != ContextOf(items[i].conf) {
        var j :| 0 <= j < i + 1 && ContextOf(items[..i + 1][j].conf) == ctx;
        assert items[..i][j] == items[..i + 1][j];
      }
    }
  }

  // ------------------------------------------------------- slices and files

  predicate Belongs(sanitize: string -> string, items: seq<Item>, tree: Tree, ctx: string, bp: string) {
    ctx in tree && BpOfContext(sanitize, items, ctx) == bp
  }

  /** The entry of one business process, if it has one. */
  function Entry(sections: Sections, k: Section, bp: string): map<string, string> {
    if k in sections && bp in sections[k] then map[bp := sections[k][bp]] else map[]
  }

  function Slice(sanitize: string -> string, ws: Workspace, bp: string): File {
    var tree := Grouped(ws.items, ws.tree);
    File(map ctx | ctx in tree && Belongs(sanitize, ws.items, tree, ctx, bp) ::
           if Belongs(sanitize, ws.items, tree, ctx, bp) then tree[ctx] else map[],
         map k | k in ws.sections && bp in ws.sections[k] :: Entry(ws.sections, k, bp))
  }

  /** The files as they are on disk, each by the name of its directory. */
  type Files = map<string, File>

  /** The order in which the directories are listed. */
  ghost predicate Reads(order: seq<string>, files: Files) {
    Ascending(order) && forall bp :: bp in order <==> bp in files
  }

  /** Which file first has a context: a key keeps its place in the dictionary when it is set again. */
  ghost function FirstWith(files: Files, order: seq<string>, ctx: string): (k: nat)
    requires forall i :: 0 <= i < |order| ==> order[i] in files
    ensures k <= |order|
  {
    if order == [] then 0
    else
      var before := order[..|order| - 1];
      assert forall i :: 0 <= i < |before| ==> before[i] == order[i];
      var k := FirstWith(files, before, ctx);
      if k < |before| then k else if ctx in files[order[|order| - 1]].tree then |before| else |order|
  }

  /** The deployments of contexts from earlier files are gone through first. */
  ghost predicate InFileOrder(files: Files, order: seq<string>, walk: seq<Slot>)
    requires forall i :: 0 <= i < |order| ==> order[i] in files
  {
    forall i, j ::
      0 <= i < j < |walk| ==> FirstWith(files, order, walk[i].context) <= FirstWith(files, order, walk[j].context)
  }

  /** Later files replace whole contexts of earlier ones. */
  function MergedTree(files: Files, order: seq<string>): Tree
    requires forall i :: 0 <= i < |order| ==> order[i] in files
  {
    if order == [] then map[]
    else
      var before := order[..|order| - 1];
      assert forall i :: 0 <= i < |before| ==> before[i] == order[i];
      MergedTree(files, before) + files[order[|order| - 1]].tree
  }

  function SectionAt(sections: Sections, k: Section): map<string, string> {
    if k in sections then sections[k] else map[]
  }

  function MergedSection(files: Files, order: seq<string>, k: Section): map<string, string>
    requires forall i :: 0 <= i < |order| ==> order[i] in files
  {
    if order == [] then map[]
    else
      var before := order[..|order| - 1];
      assert forall i :: 0 <= i < |before| ==> before[i] == order[i];
      MergedSection(files, before, k) + SectionAt(files[order[|order| - 1]].sections, k)
  }

  /** What the readers see; a section without entries is left out. */
  datatype Whole = Whole(deployments: map<string, Conf>, tree: Tree, sections: Sections)

  const SECTIONS: set<Section> := {Firewall, Backups, Secrets, DisasterRecovery, StagingGate, Audits}

  function MergedSections(files: Files, order: seq<string>): Sections
    requires forall i :: 0 <= i < |order| ==> order[i] in files
  {
    map k | k in SECTIONS && MergedSection(files, order, k) != map[] :: MergedSection(files, order, k)
  }

  ghost predicate Aggregates(whole: Whole, files: Files, order: seq<string>, walk: seq<Slot>) {
    && Reads(order, files)
    && whole.tree == MergedTree(files, order)
    && whole.sections == MergedSections(files, order)
    && Walks(walk, whole.tree) && InFileOrder(files, order, walk)
    && whole.deployments == Flat(whole.tree, walk)
  }

  class DeployState {
    const sanitize: string -> string
    var files: Files

    constructor (sanitize: string -> string)
      ensures files == map[] && this.sanitize == sanitize
    {
      this.sanitize := sanitize;
      files := map[];
    }

    method BpSlice(ws: Workspace, bp: string) returns (file: File)
      ensures file == Slice(sanitize, ws, bp)
    {
      hide Grouped, BpOfContext, HasContext;
      var tree := FlatToTree(ws.items, ws.tree);
      var ctxBp := ContextToBp(sanitize, ws.items);
      GroupedContexts(ws.items, ws.tree);
      var bpTree := map ctx | ctx in tree && ctx in ctxBp && ctxBp[ctx] == bp :: StagesAt(tree, ctx);
      var sections := map k | k in ws.sections && bp in ws.sections[k] :: Entry(ws.sections, k, bp);
      file := File(bpTree, sections);
    }

    method WriteBpBitswan(bp: string, ws: Workspace)
      modifies this
      ensures files == old(files)[bp := Slice(sanitize, ws, bp)]
    {
      var file := BpSlice(ws, bp);
      files := files[bp := file];
    }

    method ReadWorkspaceBitswan() returns (whole: Whole)
      ensures exists order, walk :: Aggregates(whole, files, order, walk)
    {
      hide MergedTree, MergedSections, Ordered, Ascending, Follows, Flat, InFileOrder, InTree;
      var merged, contexts := MergeFiles();
      ghost var order :| Reads(order, files) && Merged(merged, files, order) && Ordered(contexts, files, order);
      var sections := map k | k in SECTIONS && merged.sections[k] != map[] :: merged.sections[k];
      SameSections(merged, files, order, sections);
      OrderedContexts(contexts, files, order);
      hide Merged;
      var flat := TreeToFlat(merged.tree, contexts);
      ghost var walk :| Walks(walk, merged.tree) && Follows(walk, contexts) && flat == Flat(merged.tree, walk);
      whole := Whole(flat, merged.tree, sections);
      Aggregated(whole, files, order, walk, contexts);
    }

    /** The merged maps, and the contexts in the order in which they came into the dictionary. */
    method MergeFiles() returns (merged: File, contexts: seq<string>)
      ensures exists order ::
                Reads(order, files) && Merged(merged, files, order) && Ordered(contexts, files, order)
    {
      merged := File(map[], map k | k in SECTIONS :: map[]);
      contexts := [];
      var order := SortNames(files.Keys);
      MergedNone(files);
      hide Merged, Ordered;
      assert order[..0] == [];
      for i := 0 to |order|
        invariant Merged(merged, files, order[..i]) && Ordered(contexts, files, order[..i])
      {
        var bp := order[i];
        assert order[..i + 1] == order[..i] + [bp];
        MergedSnoc(merged, files, order[..i], bp);
        merged := MergeFile(merged, files[bp]);
        var more := NewContexts(files[bp].tree, contexts);
        OrderedSnoc(contexts, more, files, order[..i], bp);
        contexts := contexts + more;
      }
      assert order[..|order|] == order;
      assert Reads(order, files);
    }
  }

  lemma MergedNone(files: Files)
    ensures Merged(File(map[], map k | k in SECTIONS :: map[]), files, []) && Ordered([], files, [])
  {
  }

  /** The contexts of a file that are not known yet, in some order. */
  method NewContexts(tree: Tree, known: seq<string>) returns (more: seq<string>)
    ensures NoDuplicates(more) && forall ctx :: ctx in more <==> ctx in tree && ctx !in known
  {
    more := [];
    var left := tree.Keys;
    while left != {}
      invariant left <= tree.Keys && NoDuplicates(more)
      invariant forall ctx :: ctx in more <==> ctx in tree && ctx !in known && ctx !in left
      decreases left
    {
      var ctx :| ctx in left;
      left := left - {ctx};
      if ctx !in known {
        more := more + [ctx];
      }
    }
  }

  /** The contexts of the files read so far, those of earlier files first. */
  ghost predicate Ordered(contexts: seq<string>, files: Files, order: seq<string>) {
    && (forall i :: 0 <= i < |order| ==> order[i] in files)
    && NoDuplicates(contexts)
    && (forall ctx :: ctx in contexts <==> FirstWith(files, order, ctx) < |order|)
    && (forall i, j :: 0 <= i < j < |contexts| ==>
          FirstWith(files, order, contexts[i]) <= FirstWith(files, order, contexts[j]))
  }

  lemma FirstWithSnoc(files: Files, order: seq<string>, bp: string, ctx: string)
    requires bp in files && forall i :: 0 <= i < |order| ==> order[i] in files
    ensures forall i :: 0 <= i < |order + [bp]| ==> (order + [bp])[i] in files
    ensures FirstWith(files, order + [bp], ctx)
         == var k := FirstWith(files, order, ctx);
            if k < |order| then k else if ctx in files[bp].tree then |order| else |order| + 1
  {
    assert (order + [bp])[..|order|] == order;
  }

  lemma OrderedSnoc(contexts: seq<string>, more: seq<string>, files: Files, order: seq<string>, bp: string)
    requires Ordered(contexts, files, order) && bp in files && NoDuplicates(more)
    requires forall ctx :: ctx in more <==> ctx in files[bp].tree && ctx !in contexts
    ensures Ordered(contexts + more, files, order + [bp])
  {
    hide FirstWith;
    var all, longer := contexts + more, order + [bp];
    forall ctx
      ensures forall i :: 0 <= i < |longer| ==> longer[i] in files
      ensures FirstWith(files, longer, ctx)
           == var k := FirstWith(files, order, ctx);
              if k < |order| then k else if ctx in files[bp].tree then |order| else |order| + 1
    {
      FirstWithSnoc(files, order, bp, ctx);
    }
    assert forall i :: 0 <= i < |contexts| ==> contexts[i] in contexts;
    assert forall i :: 0 <= i < |more| ==> more[i] in more;
  }

  lemma {:induction false} FirstWithTree(files: Files, order: seq<string>, ctx: string)
    requires forall i :: 0 <= i < |order| ==> order[i] in files
    ensures ctx in MergedTree(files, order) <==> FirstWith(files, order, ctx) < |order|
  {
    if order != [] {
      FirstWithTree(files, order[..|order| - 1], ctx);
    }
  }

  lemma OrderedContexts(contexts: seq<string>, files: Files, order: seq<string>)
    requires Ordered(contexts, files, order)
    ensures NoDuplicates(contexts) && forall ctx :: ctx in contexts <==> ctx in MergedTree(files, order)
  {
    forall ctx
      ensures ctx in contexts <==> ctx in MergedTree(files, order)
    {
      FirstWithTree(files, order, ctx);
    }
  }

  lemma FollowsFiles(contexts: seq<string>, files: Files, order: seq<string>, walk: seq<Slot>)
    requires Ordered(contexts, files, order) && Follows(walk, contexts)
    requires forall i :: 0 <= i < |walk| ==> walk[i].context in contexts
    ensures InFileOrder(files, order, walk)
  {
    hide FirstWith, Place;
    forall i, j | 0 <= i < j < |walk|
      ensures FirstWith(files, order, walk[i].context) <= FirstWith(files, order, walk[j].context)
    {
      var p, q := Place(contexts, walk[i].context), Place(contexts, walk[j].context);
      assert p <= q && contexts[p] == walk[i].context && contexts[q] == walk[j].context;
    }
  }

  lemma Aggregated(whole: Whole, files: Files, order: seq<string>, walk: seq<Slot>, contexts: seq<string>)
    requires Reads(order, files) && Ordered(contexts, files, order)
    requires whole.tree == MergedTree(files, order) && whole.sections == MergedSections(files, order)
    requires Walks(walk, whole.tree) && Follows(walk, contexts) && whole.deployments == Flat(whole.tree, walk)
    ensures Aggregates(whole, files, order, walk)
  {
    hide MergedTree, MergedSections, Follows, Flat, InFileOrder;
    OrderedContexts(contexts, files, order);
    forall i | 0 <= i < |walk|
      ensures walk[i].context in contexts
    {
      assert InTree(whole.tree, walk[i]);
    }
    hide Ordered;
    FollowsFiles(contexts, files, order, walk);
  }

  lemma SameSections(merged: File, files: Files, order: seq<string>, sections: Sections)
    requires Merged(merged, files, order)
    requires sections == map k | k in SECTIONS && merged.sections[k] != map[] :: merged.sections[k]
    ensures merged.tree == MergedTree(files, order) && sections == MergedSections(files, order)
  {
    var all := MergedSections(files, order);
    forall k: Section
      ensures k in sections <==> k in all
      ensures k in sections ==> sections[k] == all[k]
    {
      assert k in SECTIONS ==> merged.sections[k] == MergedSection(files, order, k);
    }
  }

  /** One file's entries put over those read before. */
  function MergeFile(merged: File, file: File): File {
    File(merged.tree + file.tree,
         map k | k in SECTIONS :: SectionAt(merged.sections, k) + SectionAt(file.sections, k))
  }

  ghost predicate Merged(merged: File, files: Files, order: seq<string>) {
    && (forall i :: 0 <= i < |order| ==> order[i] in files)
    && merged.tree == MergedTree(files, order)
    && merged.sections.Keys == SECTIONS
    && forall k :: k in SECTIONS ==> merged.sections[k] == MergedSection(files, order, k)
  }

  lemma MergedSnoc(merged: File, files: Files, order: seq<string>, bp: string)
    requires Merged(merged, files, order) && bp in files
    ensures Merged(MergeFile(merged, files[bp]), files, order + [bp])
  {
    assert (order + [bp])[..|order|] == order;
  }

  lemma {:induction false} GroupedContexts(items: seq<Item>, existing: Tree)
    ensures forall ctx :: ctx in Grouped(items, existing) <==> HasContext(items, ctx)
  {
    if items != [] {
      var n := |items| - 1;
      GroupedContexts(items[..n], existing);
      HasContextSnoc(items, n);
      assert items[..n + 1] == items;
    }
  }
}
