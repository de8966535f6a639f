/** Writing the slices and reading them back: what is restored, and what a write leaves alone. */
module SliceLaws {
  import opened Names
  import opened Options
  import opened Slices

  // ------------------------------------------------------- what a group holds

  predicate InGroup(item: Item, ctx: string, stage: string) {
    ContextOf(item.conf) == ctx && StageOf(item.conf) == stage
  }

  ghost predicate HasGroup(items: seq<Item>, ctx: string, stage: string) {
    exists i :: 0 <= i < |items| && InGroup(items[i], ctx, stage)
  }

  /** The last commit that a deployment of the group carries. */
  function LastCommit(items: seq<Item>, ctx: string, stage: string): Option<string> {
    if items == [] then None
    else
      var item := items[|items| - 1];
      if InGroup(item, ctx, stage) && !Missing(item.conf.sourceCommit) then item.conf.sourceCommit
      else LastCommit(items[..|items| - 1], ctx, stage)
  }

  lemma AddedAt(tree: Tree, item: Item, existing: Tree, ctx: string, stage: string)
    ensures InGroup(item, ctx, stage) ==>
              && NodeAt(Added(tree, item, existing), ctx, stage).Some?
              && DeploymentsAt(Added(tree, item, existing), ctx, stage)
              == DeploymentsAt(tree, ctx, stage)[item.id := item.conf]
              && CommitAt(Added(tree, item, existing), ctx, stage)
              == if Set(item.conf.sourceCommit) then item.conf.sourceCommit
                 else if CommitAt(tree, ctx, stage).None? then CommitAt(existing, ctx, stage)
                 else CommitAt(tree, ctx, stage)
    ensures !InGroup(item, ctx, stage) ==> NodeAt(Added(tree, item, existing), ctx, stage) == NodeAt(tree, ctx, stage)
  {
  }

  /** A group has the last commit that one of its deployments carries, or else the one it had. */
  lemma {:induction false} CommitOfGroup(items: seq<Item>, existing: Tree, ctx: string, stage: string)
    ensures NodeAt(Grouped(items, existing), ctx, stage).Some? <==> HasGroup(items, ctx, stage)
    ensures CommitAt(Grouped(items, existing), ctx, stage)
         == if !HasGroup(items, ctx, stage) then None
            else if LastCommit(items, ctx, stage).Some? then LastCommit(items, ctx, stage)
            else CommitAt(existing, ctx, stage)
  {
    if items != [] {
      var init, item := items[..|items| - 1], items[|items| - 1];
      CommitOfGroup(init, existing, ctx, stage);
      AddedAt(Grouped(init, existing), item, existing, ctx, stage);
      LastInGroup(items, ctx, stage);
      if LastCommit(init, ctx, stage).Some? {
        CommitNeedsGroup(init, ctx, stage);
      }
    }
  }

  lemma LastInGroup(items: seq<Item>, ctx: string, stage: string)
    requires items != []
    ensures HasGroup(items, ctx, stage)
       <==> HasGroup(items[..|items| - 1], ctx, stage) || InGroup(items[|items| - 1], ctx, stage)
  {
    var init := items[..|items| - 1];
    if HasGroup(init, ctx, stage) {
      var i :| 0 <= i < |init| && InGroup(init[i], ctx, stage);
      assert items[i] == init[i];
    }
    if HasGroup(items, ctx, stage) && !InGroup(items[|items| - 1], ctx, stage) {
      var i :| 0 <= i < |items| && InGroup(items[i], ctx, stage);
      assert init[i] == items[i];
    }
  }

  lemma {:induction false} CommitNeedsGroup(items: seq<Item>, ctx: string, stage: string)
    requires LastCommit(items, ctx, stage).Some?
    ensures exists i :: 0 <= i < |items| && InGroup(items[i], ctx, stage)
                        && Set(items[i].conf.sourceCommit)
                        && items[i].conf.sourceCommit == LastCommit(items, ctx, stage)
  {
    var init, item := items[..|items| - 1], items[|items| - 1];
    if !(InGroup(item, ctx, stage) && Set(item.conf.sourceCommit)) {
      CommitNeedsGroup(init, ctx, stage);
      var i :| 0 <= i < |init| && InGroup(init[i], ctx, stage) && Set(init[i].conf.sourceCommit)
               && init[i].conf.sourceCommit == LastCommit(items, ctx, stage);
      assert items[i] == init[i];
    }
  }

  lemma AddedHolds(tree: Tree, item: Item, existing: Tree, ctx: string, stage: string)
    ensures DeploymentsAt(Added(tree, item, existing), ctx, stage)
         == if InGroup(item, ctx, stage) then DeploymentsAt(tree, ctx, stage)[item.id := item.conf]
            else DeploymentsAt(tree, ctx, stage)
  {
    hide Added, NodeAt, CommitAt, InGroup, Set;
    AddedAt(tree, item, existing, ctx, stage);
  }

  lemma {:induction false} GroupedSnoc(items: seq<Item>, existing: Tree)
    requires items != []
    ensures Grouped(items, existing)
         == Added(Grouped(items[..|items| - 1], existing), items[|items| - 1], existing)
  {
    hide Added;
  }

  lemma {:induction false} DistinctSnoc(items: seq<Item>, i: nat)
    requires Distinct(items) && i < |items| - 1
    ensures Distinct(items[..|items| - 1]) && items[i].id != items[|items| - 1].id
  {
  }

  /** Every deployment is in its own group as it is, and in no other. */
  lemma {:induction false} GroupHolds(items: seq<Item>, existing: Tree, i: nat)
    requires Distinct(items) && i < |items|
    ensures var conf := items[i].conf;
            var held := DeploymentsAt(Grouped(items, existing), ContextOf(conf), StageOf(conf));
            items[i].id in held && held[items[i].id] == conf
  {
    hide Grouped, Added, DeploymentsAt, ContextOf, StageOf, Distinct;
    var n := |items| - 1;
    var init, item, conf := items[..n], items[n], items[i].conf;
    GroupedSnoc(items, existing);
    AddedHolds(Grouped(init, existing), item, existing, ContextOf(conf), StageOf(conf));
    if i < n {
      DistinctSnoc(items, i);
      GroupHolds(init, existing, i);
    }
  }

  predicate Missing(value: Option<string>) {
    value == None || value == Some("")
  }

  /** Where that is: an empty or missing context is ungrouped, an empty or missing stage is production. */
  lemma GroupedWhere(items: seq<Item>, existing: Tree, i: nat)
    requires Distinct(items) && i < |items|
    ensures var conf := items[i].conf;
            var ctx := if Missing(conf.context) then "ungrouped" else conf.context.value;
            var stage := if Missing(conf.stage) then "production" else conf.stage.value;
            var slot := Slot(ctx, stage, items[i].id);
            InTree(Grouped(items, existing), slot)
            && DeploymentsAt(Grouped(items, existing), ctx, stage)[items[i].id] == conf
  {
    hide Grouped;
    GroupHolds(items, existing, i);
  }

  lemma {:induction false} SlotsAreItems(items: seq<Item>, existing: Tree, slot: Slot) returns (i: nat)
    requires InTree(Grouped(items, existing), slot)
    ensures i < |items| && items[i].id == slot.id && InGroup(items[i], slot.context, slot.stage)
  {
    var n := |items| - 1;
    AddedAt(Grouped(items[..n], existing), items[n], existing, slot.context, slot.stage);
    if InTree(Grouped(items[..n], existing), slot) {
      i := SlotsAreItems(items[..n], existing, slot);
    } else {
      i := n;
    }
  }

  // ---------------------------------------------------------- flat, and back

  /** The configuration with its defaults written out. */
  function Defaulted(conf: Conf): Conf {
    conf.(context := if conf.context.Some? then conf.context else Some("ungrouped"),
          stage := if conf.stage.Some? then conf.stage else Some(""))
  }

  ghost predicate Unique(tree: Tree, id: string) {
    forall a, b :: InTree(tree, a) && InTree(tree, b) && a.id == id && b.id == id ==> a == b
  }

  function ConfAt(tree: Tree, slot: Slot): Conf
    requires InTree(tree, slot)
  {
    Hydrated(DeploymentsAt(tree, slot.context, slot.stage)[slot.id], slot.context, slot.stage)
  }

  /** A deployment that has one place in the tree is read from there, whatever the order. */
  lemma {:induction false} FlatAt(tree: Tree, order: seq<Slot>, slot: Slot)
    requires forall i :: 0 <= i < |order| ==> InTree(tree, order[i])
    requires slot in order && InTree(tree, slot) && Unique(tree, slot.id)
    ensures slot.id in Flat(tree, order) && Flat(tree, order)[slot.id] == ConfAt(tree, slot)
  {
    var n := |order| - 1;
    assert InTree(tree, order[n]);
    if order[n] != slot {
      assert slot in order[..n];
      FlatAt(tree, order[..n], slot);
    }
  }

  lemma {:induction false} FlatFrom(tree: Tree, order: seq<Slot>, id: string) returns (slot: Slot)
    requires forall i :: 0 <= i < |order| ==> InTree(tree, order[i])
    requires id in Flat(tree, order)
    ensures InTree(tree, slot) && slot.id == id
  {
    var n := |order| - 1;
    if order[n].id == id {
      slot := order[n];
      assert InTree(tree, slot);
    } else {
      slot := FlatFrom(tree, order[..n], id);
    }
  }

  /** The flat map holds exactly the deployments, each with its defaults. */
  ghost predicate Restores(flat: map<string, Conf>, items: seq<Item>) {
    && (forall i :: 0 <= i < |items| ==> items[i].id in flat && flat[items[i].id] == Defaulted(items[i].conf))
    && (forall id :: id in flat ==> exists i :: 0 <= i < |items| && items[i].id == id)
  }

  lemma GroupedUnique(items: seq<Item>, existing: Tree, id: string)
    requires Distinct(items)
    ensures Unique(Grouped(items, existing), id)
  {
    var tree := Grouped(items, existing);
    forall a, b | InTree(tree, a) && InTree(tree, b) && a.id == id && b.id == id
      ensures a == b
    {
      var i := SlotsAreItems(items, existing, a);
      var j := SlotsAreItems(items, existing, b);
      assert i == j;
    }
  }

  /** Grouping and flattening give the deployments back. */
  lemma FlatOfGrouped(items: seq<Item>, existing: Tree, order: seq<Slot>)
    requires Distinct(items) && Walks(order, Grouped(items, existing))
    ensures Restores(Flat(Grouped(items, existing), order), items)
  {
    var tree := Grouped(items, existing);
    forall i | 0 <= i < |items|
      ensures items[i].id in Flat(tree, order) && Flat(tree, order)[items[i].id] == Defaulted(items[i].conf)
    {
      var slot := Slot(ContextOf(items[i].conf), StageOf(items[i].conf), items[i].id);
      GroupHolds(items, existing, i);
      GroupedUnique(items, existing, items[i].id);
      assert InTree(tree, slot);
      FlatAt(tree, order, slot);
    }
    forall id | id in Flat(tree, order)
      ensures exists i :: 0 <= i < |items| && items[i].id == id
    {
      var slot := FlatFrom(tree, order, id);
      var i := SlotsAreItems(items, existing, slot);
    }
  }

  // ---------------------------------------------------------------- merging

  /** A context that no file but one can have is read from that one. */
  lemma {:induction false} MergedAt(files: Files, order: seq<string>, ctx: string, home: string)
    requires forall i :: 0 <= i < |order| ==> order[i] in files
    requires forall bp :: bp in files && ctx in files[bp].tree ==> bp == home
    ensures ctx in MergedTree(files, order) <==> home in order && ctx in files[home].tree
    ensures ctx in MergedTree(files, order) ==> MergedTree(files, order)[ctx] == files[home].tree[ctx]
  {
    if order != [] {
      var n := |order| - 1;
      assert order == order[..n] + [order[n]];
      MergedAt(files, order[..n], ctx, home);
    }
  }

  lemma {:induction false} MergedSectionAt(files: Files, order: seq<string>, k: Section, name: string)
    requires forall i :: 0 <= i < |order| ==> order[i] in files
    requires forall bp :: bp in files && name in SectionAt(files[bp].sections, k) ==> bp == name
    ensures name in MergedSection(files, order, k) <==> name in order && name in SectionAt(files[name].sections, k)
    ensures name in MergedSection(files, order, k)
            ==> MergedSection(files, order, k)[name] == SectionAt(files[name].sections, k)[name]
  {
    if order != [] {
      var n := |order| - 1;
      assert order == order[..n] + [order[n]];
      MergedSectionAt(files, order[..n], k, name);
    }
  }

  // --------------------------------------------------------- the round trip

  function Written(sanitize: string -> string, ws: Workspace, bps: set<string>): Files {
    map bp | bp in bps :: Slice(sanitize, ws, bp)
  }

  ghost predicate CoversContexts(sanitize: string -> string, ws: Workspace, bps: set<string>) {
    forall ctx :: ctx in Grouped(ws.items, ws.tree) ==> BpOfContext(sanitize, ws.items, ctx) in bps
  }

  ghost predicate CoversSections(ws: Workspace, bps: set<string>) {
    forall k, name :: name in SectionAt(ws.sections, k) ==> name in bps
  }

  lemma WrittenAt(sanitize: string -> string, ws: Workspace, bps: set<string>, order: seq<string>, ctx: string)
    requires Reads(order, Written(sanitize, ws, bps))
    ensures var tree, merged := Grouped(ws.items, ws.tree), MergedTree(Written(sanitize, ws, bps), order);
            && (ctx in merged <==> ctx in tree && BpOfContext(sanitize, ws.items, ctx) in bps)
            && (ctx in merged ==> merged[ctx] == tree[ctx])
  {
    MergedAt(Written(sanitize, ws, bps), order, ctx, BpOfContext(sanitize, ws.items, ctx));
  }

  /** The tree that is read is the grouped one exactly when the file of every context was written. */
  lemma TreeRoundTrip(sanitize: string -> string, ws: Workspace, bps: set<string>, order: seq<string>)
    requires Reads(order, Written(sanitize, ws, bps))
    ensures MergedTree(Written(sanitize, ws, bps), order) == Grouped(ws.items, ws.tree)
       <==> CoversContexts(sanitize, ws, bps)
  {
    hide MergedTree, Grouped, BpOfContext, Written, Ascending;
    var tree, merged := Grouped(ws.items, ws.tree), MergedTree(Written(sanitize, ws, bps), order);
    forall ctx
      ensures ctx in merged <==> ctx in tree && BpOfContext(sanitize, ws.items, ctx) in bps
      ensures ctx in merged ==> merged[ctx] == tree[ctx]
    {
      WrittenAt(sanitize, ws, bps, order, ctx);
    }
  }

  lemma AllSections(k: Section)
    ensures k in SECTIONS
  {
  }

  function NonEmpty(sections: Sections): Sections {
    map k | k in sections && sections[k] != map[] :: SectionAt(sections, k)
  }

  lemma SliceSection(sanitize: string -> string, ws: Workspace, bp: string, k: Section)
    ensures SectionAt(Slice(sanitize, ws, bp).sections, k) == Entry(ws.sections, k, bp)
  {
    hide Grouped, Belongs;
  }

  lemma WrittenSection(sanitize: string -> string, ws: Workspace, bps: set<string>, order: seq<string>, k: Section,
                       name: string)
    requires Reads(order, Written(sanitize, ws, bps))
    ensures var merged := MergedSection(Written(sanitize, ws, bps), order, k);
            && (name in merged <==> name in SectionAt(ws.sections, k) && name in bps)
            && (name in merged ==> merged[name] == SectionAt(ws.sections, k)[name])
  {
    forall bp
      ensures SectionAt(Slice(sanitize, ws, bp).sections, k) == Entry(ws.sections, k, bp)
    {
      SliceSection(sanitize, ws, bp, k);
    }
    hide Slice;
    MergedSectionAt(Written(sanitize, ws, bps), order, k, name);
  }

  lemma SectionRestored(sanitize: string -> string, ws: Workspace, bps: set<string>, order: seq<string>, k: Section)
    requires Reads(order, Written(sanitize, ws, bps))
    ensures MergedSection(Written(sanitize, ws, bps), order, k) == SectionAt(ws.sections, k)
       <==> forall name :: name in SectionAt(ws.sections, k) ==> name in bps
  {
    var merged := MergedSection(Written(sanitize, ws, bps), order, k);
    forall name
      ensures name in merged <==> name in SectionAt(ws.sections, k) && name in bps
      ensures name in merged ==> merged[name] == SectionAt(ws.sections, k)[name]
    {
      WrittenSection(sanitize, ws, bps, order, k, name);
    }
    SameMaps(merged, SectionAt(ws.sections, k), bps);
  }

  lemma SameMaps(merged: map<string, string>, section: map<string, string>, bps: set<string>)
    requires forall name :: name in merged <==> name in section && name in bps
    requires forall name :: name in merged ==> merged[name] == section[name]
    ensures merged == section <==> forall name :: name in section ==> name in bps
  {
  }

  lemma SectionsRoundTrip(sanitize: string -> string, ws: Workspace, bps: set<string>, order: seq<string>)
    requires Reads(order, Written(sanitize, ws, bps))
    ensures MergedSections(Written(sanitize, ws, bps), order) == NonEmpty(ws.sections) <==> CoversSections(ws, bps)
  {
    var files := Written(sanitize, ws, bps);
    forall k: Section
      ensures k in SECTIONS
      ensures MergedSection(files, order, k) == SectionAt(ws.sections, k)
         <==> forall name :: name in SectionAt(ws.sections, k) ==> name in bps
    {
      AllSections(k);
      SectionRestored(sanitize, ws, bps, order, k);
    }
    SectionsAlike(files, order, ws.sections);
  }

  lemma SectionsAlike(files: Files, order: seq<string>, sections: Sections)
    requires forall i :: 0 <= i < |order| ==> order[i] in files
    requires forall k: Section :: k in SECTIONS
    ensures MergedSections(files, order) == NonEmpty(sections)
       <==> forall k: Section :: MergedSection(files, order, k) == SectionAt(sections, k)
  {
    var merged := MergedSections(files, order);
    assert forall k: Section :: SectionAt(merged, k) == MergedSection(files, order, k);
    assert forall k: Section :: SectionAt(NonEmpty(sections), k) == SectionAt(sections, k);
    if forall k: Section :: MergedSection(files, order, k) == SectionAt(sections, k) {
      assert forall k: Section :: k in merged <==> k in NonEmpty(sections);
    }
  }

  /** Writing the slice of every business process and reading them all restores the grouped tree with its commits, the
      deployments with their defaults, and the maps that are not empty; nothing less than every slice does. */
  lemma RoundTrip(sanitize: string -> string, ws: Workspace, bps: set<string>, whole: Whole, order: seq<string>,
                  walk: seq<Slot>)
    requires Distinct(ws.items) && Aggregates(whole, Written(sanitize, ws, bps), order, walk)
    ensures whole.tree == Grouped(ws.items, ws.tree) && whole.sections == NonEmpty(ws.sections)
       <==> CoversContexts(sanitize, ws, bps) && CoversSections(ws, bps)
    ensures CoversContexts(sanitize, ws, bps) ==> Restores(whole.deployments, ws.items)
  {
    TreeRoundTrip(sanitize, ws, bps, order);
    SectionsRoundTrip(sanitize, ws, bps, order);
    if CoversContexts(sanitize, ws, bps) {
      FlatOfGrouped(ws.items, ws.tree, walk);
    }
  }

  // ------------------------------------------------------------------ frames

  /** Each file holds the contexts and the entries of its own business process only. */
  ghost predicate AtHome(files: Files, home: string -> string) {
    && (forall bp, ctx :: bp in files && ctx in files[bp].tree ==> home(ctx) == bp)
    && (forall bp, k, name :: bp in files && name in SectionAt(files[bp].sections, k) ==> name == bp)
  }

  ghost predicate Agrees(sanitize: string -> string, ws: Workspace, home: string -> string) {
    forall ctx :: ctx in Grouped(ws.items, ws.tree) ==> BpOfContext(sanitize, ws.items, ctx) == home(ctx)
  }

  datatype Write = Write(bp: string, ws: Workspace)

  /** The files after some writes, the oldest first. */
  function AfterWrites(sanitize: string -> string, files: Files, writes: seq<Write>): Files {
    if writes == [] then files
    else
      var last := writes[|writes| - 1];
      AfterWrites(sanitize, files, writes[..|writes| - 1])[last.bp := Slice(sanitize, last.ws, last.bp)]
  }

  ghost predicate AllAgree(sanitize: string -> string, writes: seq<Write>, home: string -> string) {
    forall i :: 0 <= i < |writes| ==> Agrees(sanitize, writes[i].ws, home)
  }

  lemma {:induction false} StaysAtHome(sanitize: string -> string, files: Files, writes: seq<Write>,
                                       home: string -> string)
    requires AtHome(files, home) && AllAgree(sanitize, writes, home)
    ensures AtHome(AfterWrites(sanitize, files, writes), home)
  {
    if writes != [] {
      var n := |writes| - 1;
      StaysAtHome(sanitize, files, writes[..n], home);
      WriteStaysAtHome(sanitize, AfterWrites(sanitize, files, writes[..n]), writes[n], home);
    }
  }

  lemma WriteStaysAtHome(sanitize: string -> string, files: Files, w: Write, home: string -> string)
    requires AtHome(files, home) && Agrees(sanitize, w.ws, home)
    ensures AtHome(files[w.bp := Slice(sanitize, w.ws, w.bp)], home)
  {
  }

  function Stages(tree: Tree, ctx: string): Option<map<string, Node>> {
    if ctx in tree then Some(tree[ctx]) else None
  }

  function TreeOf(files: Files, bp: string): Tree {
    if bp in files then files[bp].tree else map[]
  }

  /** What a context should show: the last write of its business process, or what was there before. */
  function LastWritten(files: Files, writes: seq<Write>, bp: string, ctx: string): Option<map<string, Node>> {
    if writes == [] then Stages(TreeOf(files, bp), ctx)
    else
      var last := writes[|writes| - 1];
      if last.bp == bp then Stages(Grouped(last.ws.items, last.ws.tree), ctx)
      else LastWritten(files, writes[..|writes| - 1], bp, ctx)
  }

  lemma {:induction false} HomeFile(sanitize: string -> string, files: Files, writes: seq<Write>,
                                    home: string -> string, ctx: string)
    requires AllAgree(sanitize, writes, home)
    ensures Stages(TreeOf(AfterWrites(sanitize, files, writes), home(ctx)), ctx)
         == LastWritten(files, writes, home(ctx), ctx)
  {
    if writes != [] {
      var n := |writes| - 1;
      assert Agrees(sanitize, writes[n].ws, home);
      HomeFile(sanitize, files, writes[..n], home, ctx);
    }
  }

  /** After any writes from any dictionaries, each context shows the last write of its own business process: a write
      leaves what every other business process shows unchanged. */
  lemma LastWriteShows(sanitize: string -> string, files: Files, writes: seq<Write>, home: string -> string,
                       order: seq<string>, ctx: string)
    requires AtHome(files, home) && AllAgree(sanitize, writes, home)
    requires Reads(order, AfterWrites(sanitize, files, writes))
    ensures Stages(MergedTree(AfterWrites(sanitize, files, writes), order), ctx)
         == LastWritten(files, writes, home(ctx), ctx)
  {
    StaysAtHome(sanitize, files, writes, home);
    HomeFile(sanitize, files, writes, home, ctx);
    MergedAt(AfterWrites(sanitize, files, writes), order, ctx, home(ctx));
  }

  function EntryOf(files: Files, k: Section, bp: string): Option<string> {
    if bp in files && bp in SectionAt(files[bp].sections, k) then Some(SectionAt(files[bp].sections, k)[bp]) else None
  }

  function LastEntry(files: Files, writes: seq<Write>, k: Section, bp: string): Option<string> {
    if writes == [] then EntryOf(files, k, bp)
    else
      var last := writes[|writes| - 1];
      if last.bp != bp then LastEntry(files, writes[..|writes| - 1], k, bp)
      else if bp in SectionAt(last.ws.sections, k) then Some(SectionAt(last.ws.sections, k)[bp])
      else None
  }

  lemma {:induction false} HomeEntry(sanitize: string -> string, files: Files, writes: seq<Write>, k: Section,
                                     bp: string)
    ensures EntryOf(AfterWrites(sanitize, files, writes), k, bp) == LastEntry(files, writes, k, bp)
  {
    if writes != [] {
      var n := |writes| - 1;
      HomeEntry(sanitize, files, writes[..n], k, bp);
      WrittenEntry(sanitize, AfterWrites(sanitize, files, writes[..n]), writes[n], k, bp);
    }
  }

  lemma WrittenEntry(sanitize: string -> string, files: Files, w: Write, k: Section, bp: string)
    ensures EntryOf(files[w.bp := Slice(sanitize, w.ws, w.bp)], k, bp)
         == if w.bp != bp then EntryOf(files, k, bp)
            else if bp in SectionAt(w.ws.sections, k) then Some(SectionAt(w.ws.sections, k)[bp])
            else None
  {
  }

  /** The same for the maps keyed by business process. */
  lemma LastEntryShows(sanitize: string -> string, files: Files, writes: seq<Write>, home: string -> string,
                       order: seq<string>, k: Section, bp: string)
    requires AtHome(files, home) && AllAgree(sanitize, writes, home)
    requires Reads(order, AfterWrites(sanitize, files, writes))
    ensures var merged := MergedSection(AfterWrites(sanitize, files, writes), order, k);
            (if bp in merged then Some(merged[bp]) else None) == LastEntry(files, writes, k, bp)
  {
    StaysAtHome(sanitize, files, writes, home);
    HomeEntry(sanitize, files, writes, k, bp);
    MergedSectionAt(AfterWrites(sanitize, files, writes), order, k, bp);
  }

  /** The slice that is written has a deployment of this id that reads otherwise. */
  ghost predicate Differs(sanitize: string -> string, files: Files, w: Write, home: string -> string, slot: Slot)
    requires InTree(TreeOf(files, home(slot.context)), slot)
  {
    exists other :: InTree(Slice(sanitize, w.ws, w.bp).tree, other) && other.id == slot.id
                    && ConfAt(Slice(sanitize, w.ws, w.bp).tree, other)
                    != ConfAt(TreeOf(files, home(slot.context)), slot)
  }

  /** A place after which the walk comes to no other of the same id is the one that is read. */
  lemma {:induction false} FlatLast(tree: Tree, walk: seq<Slot>, slot: Slot)
    requires forall i :: 0 <= i < |walk| ==> InTree(tree, walk[i])
    requires InTree(tree, slot) && slot in walk
    requires forall i, j :: 0 <= i <= j < |walk| && walk[i] == slot && walk[j].id == slot.id ==> walk[j] == slot
    ensures slot.id in Flat(tree, walk) && Flat(tree, walk)[slot.id] == ConfAt(tree, slot)
  {
    var n := |walk| - 1;
    assert InTree(tree, walk[n]);
    if walk[n] != slot {
      var k :| 0 <= k < |walk| && walk[k] == slot;
      assert walk[n].id != slot.id;
      assert walk[..n][k] == slot;
      FlatLast(tree, walk[..n], slot);
    }
  }

  /** With every context in the file of its own business process, the files' order is that of the directories. */
  lemma {:induction false} FirstAtHome(files: Files, order: seq<string>, ctx: string, bp: string)
    requires NoDuplicates(order) && forall i :: 0 <= i < |order| ==> order[i] in files
    requires forall b :: b in files && ctx in files[b].tree ==> b == bp
    requires bp in order && ctx in files[bp].tree
    ensures FirstWith(files, order, ctx) == Place(order, bp)
  {
    var n := |order| - 1;
    if order[n] == bp {
      PlaceOf(order, n);
      NoneBefore(files, order[..n], ctx);
    } else {
      var k :| 0 <= k < |order| && order[k] == bp;
      assert order[..n][k] == bp;
      FirstAtHome(files, order[..n], ctx, bp);
      PlaceOf(order, k);
      PlaceOf(order[..n], k);
    }
  }

  lemma {:induction false} NoneBefore(files: Files, order: seq<string>, ctx: string)
    requires forall i :: 0 <= i < |order| ==> order[i] in files && ctx !in files[order[i]].tree
    ensures FirstWith(files, order, ctx) == |order|
  {
    if order != [] {
      NoneBefore(files, order[..|order| - 1], ctx);
    }
  }

  lemma AscendingDiffer(order: seq<string>)
    requires Ascending(order)
    ensures NoDuplicates(order)
  {
    forall i, j | 0 <= i < j < |order|
      ensures order[i] != order[j]
    {
      BeforeTotal(order[i], order[j]);
    }
  }

  /** In a sorted listing the places follow the names. */
  lemma PlacesAscend(order: seq<string>, a: string, b: string)
    requires Ascending(order) && a in order && b in order
    ensures Place(order, a) < Place(order, b) <==> Before(a, b)
  {
    BeforeTotal(a, b);
    var i, j := Place(order, a), Place(order, b);
    assert order[i] == a && order[j] == b;
    assert i < j ==> Before(order[i], order[j]);
    assert j < i ==> Before(order[j], order[i]);
  }

  /** What a slot's place in the files says about its place in the aggregate. */
  lemma AtHomeSlot(files: Files, home: string -> string, order: seq<string>, slot: Slot)
    requires AtHome(files, home) && Reads(order, files)
    ensures InTree(MergedTree(files, order), slot) <==> InTree(TreeOf(files, home(slot.context)), slot)
    ensures InTree(MergedTree(files, order), slot) ==>
              && ConfAt(MergedTree(files, order), slot) == ConfAt(TreeOf(files, home(slot.context)), slot)
              && home(slot.context) in order
              && FirstWith(files, order, slot.context) == Place(order, home(slot.context))
  {
    MergedAt(files, order, slot.context, home(slot.context));
    if InTree(MergedTree(files, order), slot) {
      assert slot.context in MergedTree(files, order);
      AscendingDiffer(order);
      FirstAtHome(files, order, slot.context, home(slot.context));
    }
  }

  /** The slots of one id after a write: the one there was, and those of the slice. */
  lemma SlotsAfter(sanitize: string -> string, files: Files, w: Write, home: string -> string, order: seq<string>,
                   slot: Slot)
    requires AtHome(files, home) && Agrees(sanitize, w.ws, home)
    requires Reads(order, files[w.bp := Slice(sanitize, w.ws, w.bp)])
    ensures var next := files[w.bp := Slice(sanitize, w.ws, w.bp)];
            var tree := MergedTree(next, order);
            && AtHome(next, home)
            && (home(slot.context) == w.bp ==>
                  (InTree(tree, slot) <==> InTree(Slice(sanitize, w.ws, w.bp).tree, slot)))
            && (home(slot.context) != w.bp ==> (InTree(tree, slot) <==> InTree(TreeOf(files, home(slot.context)), slot)))
            && (InTree(tree, slot) ==>
                  ConfAt(tree, slot)
                  == ConfAt(if home(slot.context) == w.bp then Slice(sanitize, w.ws, w.bp).tree
                            else TreeOf(files, home(slot.context)), slot))
  {
    hide Slice, MergedTree, Reads, ConfAt, AtHome;
    WriteStaysAtHome(sanitize, files, w, home);
    AtHomeSlot(files[w.bp := Slice(sanitize, w.ws, w.bp)], home, order, slot);
  }

  lemma SliceIsHome(sanitize: string -> string, w: Write, home: string -> string, slot: Slot)
    requires Agrees(sanitize, w.ws, home) && InTree(Slice(sanitize, w.ws, w.bp).tree, slot)
    ensures home(slot.context) == w.bp && InTree(Grouped(w.ws.items, w.ws.tree), slot)
  {
  }

  lemma SliceUnique(sanitize: string -> string, w: Write, home: string -> string, a: Slot, b: Slot)
    requires Agrees(sanitize, w.ws, home) && Distinct(w.ws.items) && a.id == b.id
    requires InTree(Slice(sanitize, w.ws, w.bp).tree, a) && InTree(Slice(sanitize, w.ws, w.bp).tree, b)
    ensures a == b
  {
    SliceIsHome(sanitize, w, home, a);
    SliceIsHome(sanitize, w, home, b);
    GroupedUnique(w.ws.items, w.ws.tree, a.id);
  }

  /** Of the places of one id this is in the directory that is listed last, and in no second context there. */
  ghost predicate LastPlace(tree: Tree, home: string -> string, slot: Slot) {
    forall other :: InTree(tree, other) && other.id == slot.id ==>
      other == slot || Before(home(other.context), home(slot.context))
  }

  /** A deployment is read from its last place. */
  lemma LastIsRead(files: Files, home: string -> string, whole: Whole, order: seq<string>, walk: seq<Slot>, slot: Slot)
    requires AtHome(files, home) && Aggregates(whole, files, order, walk)
    requires InTree(whole.tree, slot) && LastPlace(whole.tree, home, slot)
    ensures InTree(TreeOf(files, home(slot.context)), slot)
    ensures slot.id in whole.deployments
    ensures whole.deployments[slot.id] == ConfAt(TreeOf(files, home(slot.context)), slot)
  {
    hide MergedTree, AtHome, Flat, InTree, FirstWith, Place, ConfAt, Ascending, Before;
    AtHomeSlot(files, home, order, slot);
    forall i, j | 0 <= i <= j < |walk| && walk[i] == slot && walk[j].id == slot.id
      ensures walk[j] == slot
    {
      AtHomeSlot(files, home, order, walk[j]);
      PlacesAscend(order, home(walk[j].context), home(slot.context));
    }
    FlatLast(whole.tree, walk, slot);
  }

  /** Everything about the two states that the comparison needs. */
  ghost predicate Compared(sanitize: string -> string, files: Files, w: Write, home: string -> string, before: Whole,
                           after: Whole, order: seq<string>, walk: seq<Slot>, order': seq<string>, walk': seq<Slot>,
                           slot: Slot)
  {
    && AtHome(files, home) && Agrees(sanitize, w.ws, home) && Distinct(w.ws.items)
    && Aggregates(before, files, order, walk)
    && Aggregates(after, files[w.bp := Slice(sanitize, w.ws, w.bp)], order', walk')
    && home(slot.context) != w.bp && InTree(before.tree, slot) && LastPlace(before.tree, home, slot)
  }

  /** After the write a place of this id is an old one of another business process or in the slice. */
  lemma PlacesAfter(sanitize: string -> string, files: Files, w: Write, home: string -> string, before: Whole,
                    after: Whole, order: seq<string>, walk: seq<Slot>, order': seq<string>, walk': seq<Slot>,
                    slot: Slot, other: Slot)
    requires Compared(sanitize, files, w, home, before, after, order, walk, order', walk', slot)
    ensures AtHome(files[w.bp := Slice(sanitize, w.ws, w.bp)], home)
    ensures home(other.context) == w.bp ==>
              (InTree(after.tree, other) <==> InTree(Slice(sanitize, w.ws, w.bp).tree, other))
    ensures home(other.context) != w.bp ==> (InTree(after.tree, other) <==> InTree(before.tree, other))
  {
    hide Slice, AtHome, Grouped, LastPlace;
    SlotsAfter(sanitize, files, w, home, order', other);
    AtHomeSlot(files, home, order, other);
  }

  /** The old place is still the last one if the slice has none of this id, or its directory comes before. */
  lemma StaysLast(sanitize: string -> string, files: Files, w: Write, home: string -> string, before: Whole,
                  after: Whole, order: seq<string>, walk: seq<Slot>, order': seq<string>, walk': seq<Slot>, slot: Slot)
    requires Compared(sanitize, files, w, home, before, after, order, walk, order', walk', slot)
    requires Before(w.bp, home(slot.context))
             || forall other :: InTree(Slice(sanitize, w.ws, w.bp).tree, other) ==> other.id != slot.id
    ensures InTree(after.tree, slot) && LastPlace(after.tree, home, slot)
  {
    hide Slice, AtHome, Grouped, Aggregates, Agrees, InTree, Before, Distinct;
    forall other: Slot
      ensures home(other.context) == w.bp ==>
                (InTree(after.tree, other) <==> InTree(Slice(sanitize, w.ws, w.bp).tree, other))
      ensures home(other.context) != w.bp ==> (InTree(after.tree, other) <==> InTree(before.tree, other))
    {
      PlacesAfter(sanitize, files, w, home, before, after, order, walk, order', walk', slot, other);
    }
  }

  /** Otherwise the slice's is. */
  lemma SliceIsLast(sanitize: string -> string, files: Files, w: Write, home: string -> string, before: Whole,
                    after: Whole, order: seq<string>, walk: seq<Slot>, order': seq<string>, walk': seq<Slot>, slot: Slot,
                    x: Slot)
    requires Compared(sanitize, files, w, home, before, after, order, walk, order', walk', slot)
    requires Before(home(slot.context), w.bp)
    requires InTree(Slice(sanitize, w.ws, w.bp).tree, x) && x.id == slot.id
    ensures home(x.context) == w.bp && InTree(after.tree, x) && LastPlace(after.tree, home, x)
  {
    hide Slice, AtHome, Grouped, Aggregates, Agrees, InTree, Before, Distinct;
    SliceIsHome(sanitize, w, home, x);
    PlacesAfter(sanitize, files, w, home, before, after, order, walk, order', walk', slot, x);
    forall other | InTree(after.tree, other) && other.id == x.id
      ensures other == x || Before(home(other.context), w.bp)
    {
      PlacesAfter(sanitize, files, w, home, before, after, order, walk, order', walk', slot, other);
      if home(other.context) == w.bp {
        SliceUnique(sanitize, w, home, other, x);
      } else if other != slot {
        BeforeTransitive(home(other.context), home(slot.context), w.bp);
      }
    }
  }

  /** What the aggregate reads for this id before the write, and after it. */
  lemma ReadBefore(sanitize: string -> string, files: Files, w: Write, home: string -> string, before: Whole,
                   after: Whole, order: seq<string>, walk: seq<Slot>, order': seq<string>, walk': seq<Slot>, slot: Slot)
    requires Compared(sanitize, files, w, home, before, after, order, walk, order', walk', slot)
    ensures InTree(TreeOf(files, home(slot.context)), slot)
    ensures slot.id in before.deployments
    ensures before.deployments[slot.id] == ConfAt(TreeOf(files, home(slot.context)), slot)
  {
    hide Slice, AtHome, Aggregates, Agrees, InTree, ConfAt, LastPlace, Distinct;
    LastIsRead(files, home, before, order, walk, slot);
  }

  lemma ReadAfter(sanitize: string -> string, files: Files, w: Write, home: string -> string, before: Whole,
                  after: Whole, order: seq<string>, walk: seq<Slot>, order': seq<string>, walk': seq<Slot>, slot: Slot,
                  last: Slot)
    requires Compared(sanitize, files, w, home, before, after, order, walk, order', walk', slot)
    requires InTree(after.tree, last) && LastPlace(after.tree, home, last)
    ensures last.id in after.deployments
    ensures var tree := if home(last.context) == w.bp then Slice(sanitize, w.ws, w.bp).tree
                        else TreeOf(files, home(last.context));
            InTree(tree, last) && after.deployments[last.id] == ConfAt(tree, last)
  {
    PlacesAfter(sanitize, files, w, home, before, after, order, walk, order', walk', slot, last);
    hide Slice, AtHome, Aggregates, Agrees, InTree, ConfAt, LastPlace, Distinct;
    var next := files[w.bp := Slice(sanitize, w.ws, w.bp)];
    LastIsRead(next, home, after, order', walk', last);
    assert TreeOf(next, home(last.context)) == if home(last.context) == w.bp then Slice(sanitize, w.ws, w.bp).tree
                                               else TreeOf(files, home(last.context));
  }

  /** A deployment of another business process, in the last directory that has its id, reads the same after a write
      exactly when the slice has no deployment of its id that reads otherwise, or the directory written sorts before
      its own. */
  lemma DeploymentUnchanged(sanitize: string -> string, files: Files, w: Write, home: string -> string,
                            before: Whole, after: Whole, order: seq<string>, walk: seq<Slot>, order': seq<string>,
                            walk': seq<Slot>, slot: Slot)
    requires Compared(sanitize, files, w, home, before, after, order, walk, order', walk', slot)
    ensures InTree(TreeOf(files, home(slot.context)), slot)
    ensures slot.id in before.deployments && slot.id in after.deployments
    ensures before.deployments[slot.id] == after.deployments[slot.id]
       <==> !Differs(sanitize, files, w, home, slot) || Before(w.bp, home(slot.context))
  {
    ReadBefore(sanitize, files, w, home, before, after, order, walk, order', walk', slot);
    assert home(slot.context) != w.bp;
    hide Compared, Slice, ConfAt, Before, InTree, LastPlace, TreeOf;
    BeforeTotal(w.bp, home(slot.context));
    if x :| InTree(Slice(sanitize, w.ws, w.bp).tree, x) && x.id == slot.id {
      OnlyOther(sanitize, files, w, home, before, after, order, walk, order', walk', slot, x);
      if Before(w.bp, home(slot.context)) {
        StaysLast(sanitize, files, w, home, before, after, order, walk, order', walk', slot);
        ReadAfter(sanitize, files, w, home, before, after, order, walk, order', walk', slot, slot);
      } else {
        SliceIsLast(sanitize, files, w, home, before, after, order, walk, order', walk', slot, x);
        ReadAfter(sanitize, files, w, home, before, after, order, walk, order', walk', slot, x);
      }
    } else {
      StaysLast(sanitize, files, w, home, before, after, order, walk, order', walk', slot);
      ReadAfter(sanitize, files, w, home, before, after, order, walk, order', walk', slot, slot);
    }
  }

  lemma OnlyOther(sanitize: string -> string, files: Files, w: Write, home: string -> string, before: Whole,
                  after: Whole, order: seq<string>, walk: seq<Slot>, order': seq<string>, walk': seq<Slot>,
                  slot: Slot, other: Slot)
    requires Compared(sanitize, files, w, home, before, after, order, walk, order', walk', slot)
    requires InTree(TreeOf(files, home(slot.context)), slot)
    requires InTree(Slice(sanitize, w.ws, w.bp).tree, other) && other.id == slot.id
    ensures Differs(sanitize, files, w, home, slot)
       <==> ConfAt(Slice(sanitize, w.ws, w.bp).tree, other) != ConfAt(TreeOf(files, home(slot.context)), slot)
  {
    hide Slice, Grouped, ConfAt, Aggregates, AtHome, InTree, LastPlace;
    if Differs(sanitize, files, w, home, slot) {
      var x :| InTree(Slice(sanitize, w.ws, w.bp).tree, x) && x.id == slot.id
               && ConfAt(Slice(sanitize, w.ws, w.bp).tree, x) != ConfAt(TreeOf(files, home(slot.context)), slot);
      SliceUnique(sanitize, w, home, x, other);
    }
  }

  /** A workspace with one deployment, x, of the business process bp. */
  function Single(bp: string): Workspace {
    Workspace([Item("x", Conf(Some(bp), Some("dev"), None, None, bp))], map[], map[])
  }

  function SingleTree(bp: string): Tree {
    map[bp := map["dev" := Node(None, map["x" := Single(bp).items[0].conf])]]
  }

  lemma SliceOfSingle(sanitize: string -> string, bp: string)
    requires bp != ""
    ensures Slice(sanitize, Single(bp), bp) == File(SingleTree(bp), map[])
    ensures Grouped(Single(bp).items, map[]) == SingleTree(bp) && BpOfContext(sanitize, Single(bp).items, bp) == bp
  {
    var items := Single(bp).items;
    assert items[..0] == [];
    assert Grouped(items[..0], map[]) == map[];
    assert Grouped(items, map[]) == SingleTree(bp);
    assert BpOfContext(sanitize, items, bp) == bp;
  }

  lemma SingleSlot(bp: string, slot: Slot)
    ensures InTree(SingleTree(bp), slot) <==> slot == Slot(bp, "dev", "x")
    ensures InTree(SingleTree(bp), slot) ==> ConfAt(SingleTree(bp), slot) == Single(bp).items[0].conf
  {
  }

  /** So writing b's deployment x hides a's deployment x, which stays in a's file, exactly when a sorts before b. */
  lemma SharedId(sanitize: string -> string, a: string, b: string, before: Whole, after: Whole, order: seq<string>,
                 walk: seq<Slot>, order': seq<string>, walk': seq<Slot>)
    requires a != "" && b != "" && a != b
    requires Aggregates(before, map[a := Slice(sanitize, Single(a), a)], order, walk)
    requires Aggregates(after, map[a := Slice(sanitize, Single(a), a)][b := Slice(sanitize, Single(b), b)], order', walk')
    ensures "x" in before.deployments && "x" in after.deployments
    ensures before.deployments["x"] != after.deployments["x"] <==> Before(a, b)
  {
    hide Slice, Aggregates, Before;
    var files, home := map[a := Slice(sanitize, Single(a), a)], (ctx: string) => ctx;
    var w, slot := Write(b, Single(b)), Slot(a, "dev", "x");
    SinglesCompared(sanitize, a, b, before, after, order, walk, order', walk');
    DeploymentUnchanged(sanitize, files, w, home, before, after, order, walk, order', walk', slot);
    SinglesDiffer(sanitize, a, b);
    BeforeTotal(a, b);
  }

  lemma SinglesAtHome(sanitize: string -> string, a: string, b: string)
    requires a != "" && b != "" && a != b
    ensures AtHome(map[a := Slice(sanitize, Single(a), a)], (ctx: string) => ctx)
    ensures Agrees(sanitize, Single(b), (ctx: string) => ctx)
  {
    SliceOfSingle(sanitize, a);
    SliceOfSingle(sanitize, b);
    SingleContexts(a);
    SingleContexts(b);
    hide Slice, Grouped, BpOfContext, SingleTree;
  }

  lemma SinglesBefore(sanitize: string -> string, a: string, before: Whole, order: seq<string>, walk: seq<Slot>,
                      slot: Slot)
    requires a != "" && Aggregates(before, map[a := Slice(sanitize, Single(a), a)], order, walk)
    ensures InTree(before.tree, slot) <==> slot == Slot(a, "dev", "x")
  {
    SliceOfSingle(sanitize, a);
    SingleContexts(a);
    hide Slice, Grouped, BpOfContext, SingleTree, Flat, InFileOrder, Walks;
    AtHomeSlot(map[a := Slice(sanitize, Single(a), a)], (ctx: string) => ctx, order, slot);
    SingleSlot(a, slot);
  }

  lemma SinglesCompared(sanitize: string -> string, a: string, b: string, before: Whole, after: Whole,
                        order: seq<string>, walk: seq<Slot>, order': seq<string>, walk': seq<Slot>)
    requires a != "" && b != "" && a != b
    requires Aggregates(before, map[a := Slice(sanitize, Single(a), a)], order, walk)
    requires Aggregates(after, map[a := Slice(sanitize, Single(a), a)][b := Slice(sanitize, Single(b), b)], order', walk')
    ensures Compared(sanitize, map[a := Slice(sanitize, Single(a), a)], Write(b, Single(b)), (ctx: string) => ctx,
                     before, after, order, walk, order', walk', Slot(a, "dev", "x"))
  {
    hide Slice, Aggregates, AtHome, Agrees, InTree;
    SinglesAtHome(sanitize, a, b);
    forall slot
      ensures InTree(before.tree, slot) <==> slot == Slot(a, "dev", "x")
    {
      SinglesBefore(sanitize, a, before, order, walk, slot);
    }
  }

  lemma SingleContexts(bp: string)
    ensures forall ctx :: ctx in SingleTree(bp) <==> ctx == bp
  {
  }

  lemma SinglesDiffer(sanitize: string -> string, a: string, b: string)
    requires a != "" && b != "" && a != b
    ensures var files := map[a := Slice(sanitize, Single(a), a)];
            InTree(TreeOf(files, a), Slot(a, "dev", "x"))
            && Differs(sanitize, files, Write(b, Single(b)), (ctx: string) => ctx, Slot(a, "dev", "x"))
  {
    SliceOfSingle(sanitize, a);
    SliceOfSingle(sanitize, b);
    hide Slice, Grouped, BpOfContext, SingleTree, ConfAt;
    SingleSlot(a, Slot(a, "dev", "x"));
    SingleSlot(b, Slot(b, "dev", "x"));
  }

  // --------------------------------------------------- reading and writing again

  ghost predicate IsReread(item: Item, items: seq<Item>) {
    exists i :: 0 <= i < |items| && item == Item(items[i].id, Defaulted(items[i].conf))
  }

  /** The deployments in some order, as they are after they were read. */
  ghost predicate Reread(again: seq<Item>, items: seq<Item>) {
    && (forall i :: 0 <= i < |items| ==> Item(items[i].id, Defaulted(items[i].conf)) in again)
    && (forall j :: 0 <= j < |again| ==> IsReread(again[j], items))
  }

  lemma DefaultedGroup(item: Item, ctx: string, stage: string)
    ensures InGroup(Item(item.id, Defaulted(item.conf)), ctx, stage) <==> InGroup(item, ctx, stage)
    ensures ContextOf(Defaulted(item.conf)) == ContextOf(item.conf)
  {
  }

  predicate Carries(item: Item, ctx: string, stage: string) {
    InGroup(item, ctx, stage) && Set(item.conf.sourceCommit)
  }

  ghost predicate CommitsAgree(items: seq<Item>, ctx: string, stage: string) {
    forall i, j ::
      0 <= i < |items| && 0 <= j < |items| && Carries(items[i], ctx, stage) && Carries(items[j], ctx, stage)
      ==> items[i].conf.sourceCommit == items[j].conf.sourceCommit
  }

  lemma {:induction false} SomeCommit(items: seq<Item>, ctx: string, stage: string, i: nat)
    requires i < |items| && InGroup(items[i], ctx, stage) && Set(items[i].conf.sourceCommit)
    ensures LastCommit(items, ctx, stage).Some?
  {
    var n := |items| - 1;
    if i < n {
      SomeCommit(items[..n], ctx, stage, i);
    }
  }

  lemma RereadCommit(items: seq<Item>, again: seq<Item>, ctx: string, stage: string)
    requires Reread(again, items) && CommitsAgree(items, ctx, stage)
    ensures LastCommit(again, ctx, stage) == LastCommit(items, ctx, stage)
  {
    if LastCommit(items, ctx, stage).Some? {
      CommitNeedsGroup(items, ctx, stage);
      var i :| 0 <= i < |items| && InGroup(items[i], ctx, stage) && Set(items[i].conf.sourceCommit)
               && items[i].conf.sourceCommit == LastCommit(items, ctx, stage);
      var j :| 0 <= j < |again| && again[j] == Item(items[i].id, Defaulted(items[i].conf));
      DefaultedGroup(items[i], ctx, stage);
      SomeCommit(again, ctx, stage, j);
    }
    if LastCommit(again, ctx, stage).Some? {
      CommitNeedsGroup(again, ctx, stage);
      var j :| 0 <= j < |again| && InGroup(again[j], ctx, stage) && Set(again[j].conf.sourceCommit)
               && again[j].conf.sourceCommit == LastCommit(again, ctx, stage);
      assert IsReread(again[j], items);
      var i :| 0 <= i < |items| && again[j] == Item(items[i].id, Defaulted(items[i].conf));
      DefaultedGroup(items[i], ctx, stage);
      SomeCommit(items, ctx, stage, i);
      CommitNeedsGroup(items, ctx, stage);
    }
  }

  lemma RereadGroup(items: seq<Item>, again: seq<Item>, ctx: string, stage: string)
    requires Reread(again, items)
    ensures HasGroup(again, ctx, stage) <==> HasGroup(items, ctx, stage)
  {
    if HasGroup(items, ctx, stage) {
      var i :| 0 <= i < |items| && InGroup(items[i], ctx, stage);
      DefaultedGroup(items[i], ctx, stage);
      var j :| 0 <= j < |again| && again[j] == Item(items[i].id, Defaulted(items[i].conf));
      assert InGroup(again[j], ctx, stage);
    }
    if HasGroup(again, ctx, stage) {
      var j :| 0 <= j < |again| && InGroup(again[j], ctx, stage);
      assert IsReread(again[j], items);
      var i :| 0 <= i < |items| && again[j] == Item(items[i].id, Defaulted(items[i].conf));
      DefaultedGroup(items[i], ctx, stage);
      assert InGroup(items[i], ctx, stage);
    }
  }

  function DefaultedItems(items: seq<Item>): (again: seq<Item>)
    ensures |again| == |items|
    ensures forall i :: 0 <= i < |items| ==> again[i] == Item(items[i].id, Defaulted(items[i].conf))
  {
    seq(|items|, i requires 0 <= i < |items| => Item(items[i].id, Defaulted(items[i].conf)))
  }

  /** The same deployments with the k-th moved to the end. */
  function MovedLast(items: seq<Item>, k: nat): seq<Item>
    requires k < |items|
  {
    items[..k] + items[k + 1..] + [items[k]]
  }

  lemma MovedIsReread(items: seq<Item>, k: nat)
    requires k < |items|
    ensures Reread(MovedLast(DefaultedItems(items), k), items)
  {
    var all := DefaultedItems(items);
    assert all == all[..k] + [all[k]] + all[k + 1..];
    SameItems(items, MovedLast(all, k));
  }

  lemma SameItems(items: seq<Item>, again: seq<Item>)
    requires forall x :: x in again <==> x in DefaultedItems(items)
    ensures Reread(again, items)
  {
    var all := DefaultedItems(items);
    forall i | 0 <= i < |items|
      ensures Item(items[i].id, Defaulted(items[i].conf)) in again
    {
      assert all[i] in all;
    }
    forall j | 0 <= j < |again|
      ensures IsReread(again[j], items)
    {
      assert again[j] in all;
    }
  }

  /** Grouping what was read keeps a group's commit, in whatever order it was read, exactly when the group's deployments
      agree on it. */
  lemma CommitStable(items: seq<Item>, existing: Tree, ctx: string, stage: string)
    ensures CommitsAgree(items, ctx, stage) <==> forall again :: Reread(again, items) ==>
              CommitAt(Grouped(again, Grouped(items, existing)), ctx, stage)
              == CommitAt(Grouped(items, existing), ctx, stage)
  {
    CommitOfGroup(items, existing, ctx, stage);
    forall again | Reread(again, items) && CommitsAgree(items, ctx, stage)
      ensures CommitAt(Grouped(again, Grouped(items, existing)), ctx, stage)
           == CommitAt(Grouped(items, existing), ctx, stage)
    {
      CommitOfGroup(again, Grouped(items, existing), ctx, stage);
      RereadCommit(items, again, ctx, stage);
      RereadGroup(items, again, ctx, stage);
    }
    if !CommitsAgree(items, ctx, stage) {
      var i, j :| 0 <= i < |items| && 0 <= j < |items| && Carries(items[i], ctx, stage)
                  && Carries(items[j], ctx, stage) && items[i].conf.sourceCommit != items[j].conf.sourceCommit;
      var k := if items[i].conf.sourceCommit == CommitAt(Grouped(items, existing), ctx, stage) then j else i;
      CommitLost(items, existing, ctx, stage, k);
    }
  }

  lemma CommitLost(items: seq<Item>, existing: Tree, ctx: string, stage: string, k: nat)
    requires k < |items| && InGroup(items[k], ctx, stage) && Set(items[k].conf.sourceCommit)
    requires items[k].conf.sourceCommit != CommitAt(Grouped(items, existing), ctx, stage)
    ensures exists again :: Reread(again, items)
                            && CommitAt(Grouped(again, Grouped(items, existing)), ctx, stage)
                            != CommitAt(Grouped(items, existing), ctx, stage)
  {
    var again := MovedLast(DefaultedItems(items), k);
    MovedIsReread(items, k);
    DefaultedGroup(items[k], ctx, stage);
    CommitOfGroup(again, Grouped(items, existing), ctx, stage);
    assert again[|again| - 1] == Item(items[k].id, Defaulted(items[k].conf));
    assert LastCommit(again, ctx, stage) == items[k].conf.sourceCommit;
  }

  ghost predicate BpsAgree(sanitize: string -> string, items: seq<Item>, ctx: string) {
    forall i, j ::
      0 <= i < |items| && 0 <= j < |items| && ContextOf(items[i].conf) == ctx && ContextOf(items[j].conf) == ctx
      ==> DeploymentBp(sanitize, items[i].conf, ctx) == DeploymentBp(sanitize, items[j].conf, ctx)
  }

  /** The deployment at i decides for its context. */
  ghost predicate Decides(sanitize: string -> string, items: seq<Item>, ctx: string, i: nat) {
    && i < |items| && ContextOf(items[i].conf) == ctx
    && BpOfContext(sanitize, items, ctx) == DeploymentBp(sanitize, items[i].conf, ctx)
  }

  lemma {:induction false} BpIsSome(sanitize: string -> string, items: seq<Item>, ctx: string)
    ensures !HasContext(items, ctx) ==> BpOfContext(sanitize, items, ctx) == ctx
    ensures HasContext(items, ctx) ==> exists i: nat :: Decides(sanitize, items, ctx, i)
  {
    if items != [] {
      var rest := items[1..];
      BpIsSome(sanitize, rest, ctx);
      ContextInRest(items, ctx);
      if ContextOf(items[0].conf) == ctx {
        assert Decides(sanitize, items, ctx, 0);
      } else if HasContext(items, ctx) {
        var j: nat :| Decides(sanitize, rest, ctx, j);
        assert items[j + 1] == rest[j];
        assert Decides(sanitize, items, ctx, j + 1);
      }
    }
  }

  lemma ContextInRest(items: seq<Item>, ctx: string)
    requires items != []
    ensures HasContext(items, ctx) <==> ContextOf(items[0].conf) == ctx || HasContext(items[1..], ctx)
  {
    var rest := items[1..];
    if HasContext(rest, ctx) {
      var j :| 0 <= j < |rest| && ContextOf(rest[j].conf) == ctx;
      assert items[j + 1] == rest[j];
    }
    if HasContext(items, ctx) && ContextOf(items[0].conf) != ctx {
      var i :| 0 <= i < |items| && ContextOf(items[i].conf) == ctx;
      assert rest[i - 1] == items[i];
    }
  }

  lemma RereadContext(items: seq<Item>, again: seq<Item>, ctx: string)
    requires Reread(again, items)
    ensures HasContext(again, ctx) <==> HasContext(items, ctx)
  {
    if HasContext(again, ctx) {
      var j :| 0 <= j < |again| && ContextOf(again[j].conf) == ctx;
      assert IsReread(again[j], items);
      var i :| 0 <= i < |items| && again[j] == Item(items[i].id, Defaulted(items[i].conf));
      DefaultedGroup(items[i], ctx, "");
    }
    if HasContext(items, ctx) {
      var i :| 0 <= i < |items| && ContextOf(items[i].conf) == ctx;
      var j :| 0 <= j < |again| && again[j] == Item(items[i].id, Defaulted(items[i].conf));
      DefaultedGroup(items[i], ctx, "");
    }
  }

  lemma SameBp(sanitize: string -> string, items: seq<Item>, ctx: string, i: nat, d: nat)
    requires BpsAgree(sanitize, items, ctx) && i < |items| && d < |items|
    requires ContextOf(Defaulted(items[i].conf)) == ctx && ContextOf(items[d].conf) == ctx
    ensures DeploymentBp(sanitize, Defaulted(items[i].conf), ctx) == DeploymentBp(sanitize, items[d].conf, ctx)
  {
    DefaultedGroup(items[i], ctx, "");
  }

  lemma BpKept(sanitize: string -> string, items: seq<Item>, again: seq<Item>, ctx: string)
    requires Reread(again, items) && BpsAgree(sanitize, items, ctx)
    ensures BpOfContext(sanitize, again, ctx) == BpOfContext(sanitize, items, ctx)
  {
    BpIsSome(sanitize, items, ctx);
    BpIsSome(sanitize, again, ctx);
    RereadContext(items, again, ctx);
    if HasContext(again, ctx) {
      var j: nat :| Decides(sanitize, again, ctx, j);
      assert IsReread(again[j], items);
      var i :| 0 <= i < |items| && again[j] == Item(items[i].id, Defaulted(items[i].conf));
      var d: nat :| Decides(sanitize, items, ctx, d);
      SameBp(sanitize, items, ctx, i, d);
    }
  }

  /** The same deployments with the k-th moved to the front. */
  function MovedFirst(items: seq<Item>, k: nat): seq<Item>
    requires k < |items|
  {
    [items[k]] + items[..k] + items[k + 1..]
  }

  lemma MovedFirstIsReread(items: seq<Item>, k: nat)
    requires k < |items|
    ensures Reread(MovedFirst(DefaultedItems(items), k), items)
  {
    var all := DefaultedItems(items);
    assert all == all[..k] + [all[k]] + all[k + 1..];
    SameItems(items, MovedFirst(all, k));
  }

  lemma BpLost(sanitize: string -> string, items: seq<Item>, ctx: string, k: nat)
    requires k < |items| && ContextOf(items[k].conf) == ctx
    requires DeploymentBp(sanitize, items[k].conf, ctx) != BpOfContext(sanitize, items, ctx)
    ensures exists again :: Reread(again, items)
                            && BpOfContext(sanitize, again, ctx) != BpOfContext(sanitize, items, ctx)
  {
    var again := MovedFirst(DefaultedItems(items), k);
    MovedFirstIsReread(items, k);
    DefaultedGroup(items[k], ctx, "");
    assert again[0] == Item(items[k].id, Defaulted(items[k].conf));
    assert BpOfContext(sanitize, again, ctx) == DeploymentBp(sanitize, items[k].conf, ctx);
  }

  /** A context keeps its business process, in whatever order its deployments are read, exactly when they agree on it. */
  lemma BpStable(sanitize: string -> string, items: seq<Item>, ctx: string)
    ensures (forall again :: Reread(again, items)
                             ==> BpOfContext(sanitize, again, ctx) == BpOfContext(sanitize, items, ctx))
       <==> BpsAgree(sanitize, items, ctx)
  {
    forall again | Reread(again, items) && BpsAgree(sanitize, items, ctx)
      ensures BpOfContext(sanitize, again, ctx) == BpOfContext(sanitize, items, ctx)
    {
      BpKept(sanitize, items, again, ctx);
    }
    if !BpsAgree(sanitize, items, ctx) {
      var i, j :| 0 <= i < |items| && 0 <= j < |items|
                  && ContextOf(items[i].conf) == ctx && ContextOf(items[j].conf) == ctx
                  && DeploymentBp(sanitize, items[i].conf, ctx) != DeploymentBp(sanitize, items[j].conf, ctx);
      var k := if DeploymentBp(sanitize, items[i].conf, ctx) == BpOfContext(sanitize, items, ctx) then j else i;
      BpLost(sanitize, items, ctx, k);
    }
  }
}
