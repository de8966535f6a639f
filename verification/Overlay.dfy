/**
 The recursive walk that computes a deploy checksum over several directory
 layers overlaid on each other, later layers winning. A layer is what is found
 at one of the directory paths.
 */
module Overlay {
  import opened Bytes
  import opened Options
  import opened Sorting
  import opened Trees

  // ------------------------------------------------------- directory layers

  /** What one path holds. LinkToDir is a link that leads to a directory, Special neither file, directory nor link. */
  datatype Node =
    | File(exec: bool, content: bytes)
    | Link(target: bytes)
    | LinkToDir(target: bytes, listing: Listing)
    | Folder(listing: Listing)
    | Special

  datatype Item = Item(name: bytes, node: Node)

  /** A directory in the order the system happens to list it. */
  type Listing = seq<Item>

  const GIT: bytes := [46, 103, 105, 116]  // ".git"
  ghost predicate WellFormed(n: Node) {
    match n
    case Folder(l) => WellFormedListing(l)
    case LinkToDir(_, l) => WellFormedListing(l)
    case _ => true
  }

  ghost predicate WellFormedListing(l: Listing) {
    && (forall i :: 0 <= i < |l| ==> GoodName(l[i].name) && WellFormed(l[i].node))
    && (forall i, j :: 0 <= i < j < |l| ==> l[i].name != l[j].name)
  }

  /** The directory found at a node; links are followed, as os.path.isdir does. */
  function AsDir(n: Node): Option<Listing> {
    match n
    case Folder(l) => Some(l)
    case LinkToDir(_, l) => Some(l)
    case _ => None
  }

  function Lookup(l: Listing, name: bytes): Option<Node> {
    if l == [] then None
    else if l[|l| - 1].name == name then Some(l[|l| - 1].node)
    else Lookup(l[..|l| - 1], name)
  }

  /** The directory a layer has under one of its directories. */
  function Child(d: Option<Listing>, name: bytes): Option<Listing> {
    if d.None? then None else
    match Lookup(d.value, name)
    case None => None
    case Some(n) => AsDir(n)
  }

  /** The directory a layer has at a relative path. */
  function At(root: Node, path: seq<bytes>): Option<Listing> {
    if path == [] then AsDir(root) else Child(At(root, path[..|path| - 1]), path[|path| - 1])
  }

  type Layers = seq<Option<Listing>>

  function Children(ds: Layers, name: bytes): Layers {
    seq(|ds|, i requires 0 <= i < |ds| => Child(ds[i], name))
  }

  function DirsAt(roots: seq<Node>, path: seq<bytes>): Layers {
    seq(|roots|, i requires 0 <= i < |roots| => At(roots[i], path))
  }

  ghost predicate Sane(ds: Layers) {
    forall i :: 0 <= i < |ds| && ds[i].Some? ==> WellFormedListing(ds[i].value)
  }

  predicate Visible(name: bytes, n: Node) {
    name != GIT && !n.Special?
  }

  /** What the overlay shows of a listing. */
  function Shown(d: Option<Listing>, name: bytes): Option<Node> {
    if d.None? then None else
    match Lookup(d.value, name)
    case None => None
    case Some(n) => if Visible(name, n) then Some(n) else None
  }

  /** The entry of the last layer that shows the name. */
  function Winner(ds: Layers, name: bytes): Option<Node> {
    if ds == [] then None
    else if Shown(ds[|ds| - 1], name).Some? then Shown(ds[|ds| - 1], name)
    else Winner(ds[..|ds| - 1], name)
  }

  // ------------------------------------------------------------- the walk

  function Height(n: Node): nat {
    match n
    case Folder(l) => 1 + ListHeight(l)
    case LinkToDir(_, l) => 1 + ListHeight(l)
    case _ => 0
  }

  function ListHeight(l: Listing): nat {
    if l == [] then 0
    else
      var h, rest := Height(l[|l| - 1].node), ListHeight(l[..|l| - 1]);
      if h > rest then h else rest
  }

  function DirHeight(d: Option<Listing>): nat {
    if d.None? then 0 else 1 + ListHeight(d.value)
  }

  function Total(ds: Layers): nat {
    if ds == [] then 0 else Total(ds[..|ds| - 1]) + DirHeight(ds[|ds| - 1])
  }

  lemma {:induction false} LookupBelow(l: Listing, name: bytes)
    requires Lookup(l, name).Some?
    ensures Height(Lookup(l, name).value) <= ListHeight(l)
  {
    if l[|l| - 1].name != name {
      LookupBelow(l[..|l| - 1], name);
    }
  }

  lemma ChildLower(d: Option<Listing>, name: bytes)
    ensures DirHeight(Child(d, name)) <= DirHeight(d)
    ensures d.Some? ==> DirHeight(Child(d, name)) < DirHeight(d)
  {
    if d.Some? && Lookup(d.value, name).Some? {
      LookupBelow(d.value, name);
    }
  }

  lemma ChildrenInit(ds: Layers, name: bytes)
    requires ds != []
    ensures Children(ds, name)[..|ds| - 1] == Children(ds[..|ds| - 1], name)
    ensures Children(ds, name)[|ds| - 1] == Child(ds[|ds| - 1], name)
  {
  }

  lemma {:induction false} ChildrenLower(ds: Layers, name: bytes)
    ensures Total(Children(ds, name)) <= Total(ds)
    ensures Winner(ds, name).Some? ==> Total(Children(ds, name)) < Total(ds)
  {
    if ds != [] {
      ChildrenInit(ds, name);
      ChildrenLower(ds[..|ds| - 1], name);
      ChildLower(ds[|ds| - 1], name);
    }
  }

  ghost function ListNames(l: Listing): set<bytes> {
    set i | 0 <= i < |l| :: l[i].name
  }

  ghost function AllNames(ds: Layers): set<bytes> {
    if ds == [] then {}
    else AllNames(ds[..|ds| - 1]) + if ds[|ds| - 1].Some? then ListNames(ds[|ds| - 1].value) else {}
  }

  lemma {:induction false} LookupNamed(l: Listing, name: bytes)
    ensures Lookup(l, name).Some? <==> name in ListNames(l)
    ensures Lookup(l, name).Some? ==> Item(name, Lookup(l, name).value) in l
  {
    if l != [] {
      LookupNamed(l[..|l| - 1], name);
      assert l == l[..|l| - 1] + [l[|l| - 1]];
      assert name in ListNames(l) <==> name in ListNames(l[..|l| - 1]) || name == l[|l| - 1].name by {
        if name in ListNames(l[..|l| - 1]) {
          var i :| 0 <= i < |l| - 1 && l[..|l| - 1][i].name == name;
          assert l[i].name == name;
        }
      }
    }
  }

  lemma {:induction false} WinnerNamed(ds: Layers, name: bytes)
    ensures Winner(ds, name).Some? ==> name in AllNames(ds)
  {
    if ds != [] {
      WinnerNamed(ds[..|ds| - 1], name);
      if ds[|ds| - 1].Some? {
        LookupNamed(ds[|ds| - 1].value, name);
      }
    }
  }

  /** The names the overlay shows. */
  ghost function ShownNames(ds: Layers): (names: set<bytes>)
    ensures forall name :: name in names <==> Winner(ds, name).Some?
  {
    forall name ensures Winner(ds, name).Some? ==> name in AllNames(ds) { WinnerNamed(ds, name); }
    set name | name in AllNames(ds) && Winner(ds, name).Some?
  }

  /** The tree the recursive walk over the overlaid layers visits. */
  ghost function Walk(ds: Layers): Tree
    decreases Total(ds), 1
  {
    Dir(map name | name in ShownNames(ds) :: Entry(ds, name))
  }

  ghost function Entry(ds: Layers, name: bytes): Tree
    requires Winner(ds, name).Some?
    decreases Total(ds), 0
  {
    match Winner(ds, name).value
    case File(exec, content) => Blob(exec, content)
    case Link(target) => Symlink(target)
    case LinkToDir(target, _) => Symlink(target)
    case _ => ChildrenLower(ds, name); Walk(Children(ds, name))
  }

  lemma {:induction false} LookupSane(l: Listing, name: bytes)
    requires WellFormedListing(l) && Lookup(l, name).Some?
    ensures GoodName(name) && WellFormed(Lookup(l, name).value)
  {
    LookupNamed(l, name);
    var i :| 0 <= i < |l| && l[i] == Item(name, Lookup(l, name).value);
  }

  lemma {:induction false} WinnerSane(ds: Layers, name: bytes)
    requires Sane(ds) && Winner(ds, name).Some?
    ensures GoodName(name)
  {
    if Shown(ds[|ds| - 1], name).Some? {
      LookupSane(ds[|ds| - 1].value, name);
    } else {
      WinnerSane(ds[..|ds| - 1], name);
    }
  }

  lemma ChildrenSane(ds: Layers, name: bytes)
    requires Sane(ds)
    ensures Sane(Children(ds, name))
  {
    forall i | 0 <= i < |ds| && Child(ds[i], name).Some? ensures WellFormedListing(Child(ds[i], name).value) {
      LookupSane(ds[i].value, name);
    }
  }

  lemma {:induction false} WalkGood(ds: Layers)
    requires Sane(ds)
    ensures Good(Walk(ds))
    decreases Total(ds)
  {
    var t := Walk(ds);
    forall name | name in t.entries ensures GoodName(name) && Good(t.entries[name]) {
      WinnerSane(ds, name);
      assert t.entries[name] == Entry(ds, name);
      if Winner(ds, name).value.Folder? || Winner(ds, name).value.Special? {
        ChildrenLower(ds, name);
        ChildrenSane(ds, name);
        WalkGood(Children(ds, name));
      }
    }
  }

  // ---------------------------------------------------- independent of order

  /** The same file system content, listed in any order at every level. */
  ghost predicate Same(m: Node, n: Node)
    decreases m
  {
    match m
    case File(_, _) => m == n
    case Link(_) => m == n
    case LinkToDir(target, l) => n.LinkToDir? && n.target == target && SameListing(l, n.listing)
    case Folder(l) => n.Folder? && SameListing(l, n.listing)
    case Special => m == n
  }

  ghost predicate SameListing(l: Listing, k: Listing)
    decreases l
  {
    && WellFormedListing(l) && WellFormedListing(k)
    && ListNames(l) == ListNames(k)
    && forall i, j :: 0 <= i < |l| && 0 <= j < |k| && l[i].name == k[j].name ==> Same(l[i].node, k[j].node)
  }

  ghost predicate SameDirs(d: Option<Listing>, e: Option<Listing>) {
    if d.None? then e.None? else e.Some? && SameListing(d.value, e.value)
  }

  ghost predicate SameLayers(ds: Layers, es: Layers) {
    |ds| == |es| && forall i :: 0 <= i < |ds| ==> SameDirs(ds[i], es[i])
  }

  lemma LookupSame(l: Listing, k: Listing, name: bytes)
    requires SameListing(l, k)
    ensures Lookup(l, name).None? <==> Lookup(k, name).None?
    ensures Lookup(l, name).Some? ==> Same(Lookup(l, name).value, Lookup(k, name).value)
  {
    LookupNamed(l, name);
    LookupNamed(k, name);
  }

  lemma ChildrenSame(ds: Layers, es: Layers, name: bytes)
    requires SameLayers(ds, es)
    ensures SameLayers(Children(ds, name), Children(es, name))
  {
    forall i | 0 <= i < |ds| ensures SameDirs(Child(ds[i], name), Child(es[i], name)) {
      if ds[i].Some? {
        LookupSame(ds[i].value, es[i].value, name);
      }
    }
  }

  lemma {:induction false} WinnerSame(ds: Layers, es: Layers, name: bytes)
    requires SameLayers(ds, es)
    ensures Winner(ds, name).None? <==> Winner(es, name).None?
    ensures Winner(ds, name).Some? ==> Same(Winner(ds, name).value, Winner(es, name).value)
  {
    if ds != [] {
      var d, e := ds[|ds| - 1], es[|es| - 1];
      assert SameDirs(d, e);
      if d.Some? {
        LookupSame(d.value, e.value, name);
      }
      WinnerSame(ds[..|ds| - 1], es[..|es| - 1], name);
    }
  }

  /** The tree that is hashed, hence its checksum, does not depend on listing order. */
  lemma {:induction false} WalkIgnoresOrder(ds: Layers, es: Layers)
    requires SameLayers(ds, es)
    ensures Walk(ds) == Walk(es)
    decreases Total(ds)
  {
    forall name ensures name in ShownNames(ds) <==> name in ShownNames(es) { WinnerSame(ds, es, name); }
    forall name | name in ShownNames(ds) ensures Entry(ds, name) == Entry(es, name) {
      WinnerSame(ds, es, name);
      if Winner(ds, name).value.Folder? || Winner(ds, name).value.Special? {
        ChildrenLower(ds, name);
        ChildrenSame(ds, es, name);
        WalkIgnoresOrder(Children(ds, name), Children(es, name));
      }
    }
    assert Walk(ds).entries == Walk(es).entries;
  }

  // ----------------------------------------------------------- layer merging

  /** Two-way merge: the later tree wins, except that two directories are merged. */
  ghost function Merge(t: Tree, u: Tree): Tree {
    if t.Dir? && u.Dir? then
      Dir(map name | name in t.entries.Keys + u.entries.Keys ::
            if name !in u.entries then t.entries[name]
            else if name !in t.entries then u.entries[name]
            else Merge(t.entries[name], u.entries[name]))
    else u
  }

  const EMPTY: Tree := Dir(map[])

  lemma MergeEmpty(t: Tree)
    requires t.Dir?
    ensures Merge(EMPTY, t) == t && Merge(t, EMPTY) == t
  {
    assert Merge(EMPTY, t).entries == t.entries;
    assert Merge(t, EMPTY).entries == t.entries;
  }

  /** One layer alone. */
  ghost function Single(d: Option<Listing>): Tree {
    Walk([d])
  }

  /** The layers merged one after the other. */
  ghost function Fold(ds: Layers): (t: Tree)
    ensures t.Dir?
  {
    if ds == [] then EMPTY else Merge(Fold(ds[..|ds| - 1]), Single(ds[|ds| - 1]))
  }

  ghost predicate FolderAt(d: Option<Listing>, name: bytes) {
    Shown(d, name).Some? && Shown(d, name).value.Folder?
  }

  ghost predicate OtherAt(d: Option<Listing>, name: bytes) {
    Shown(d, name).Some? && !Shown(d, name).value.Folder?
  }

  /**
   No path is a directory, then something else, then a directory again, and no
   link to a directory stands where a later layer has a directory.
   */
  ghost predicate Tame(ds: Layers)
    decreases Total(ds)
  {
    forall name :: Winner(ds, name).Some? ==>
      && TameAt(ds, name)
      && (ChildrenLower(ds, name); Tame(Children(ds, name)))
  }

  ghost predicate TameAt(ds: Layers, name: bytes) {
    && (forall i, j, k :: 0 <= i < j < k < |ds| ==>
          !(FolderAt(ds[i], name) && OtherAt(ds[j], name) && FolderAt(ds[k], name)))
    && (forall i, k :: 0 <= i < k < |ds| ==>
          !(OtherAt(ds[i], name) && Child(ds[i], name).Some? && FolderAt(ds[k], name)))
  }

  lemma SingleEntry(d: Option<Listing>, name: bytes)
    ensures name in Single(d).entries <==> Shown(d, name).Some?
    ensures Shown(d, name).Some? ==> Single(d).entries[name] == Entry([d], name)
    ensures FolderAt(d, name) ==> Entry([d], name) == Single(Child(d, name))
  {
    assert [d][..0] == [];
    assert Winner([d], name) == Shown(d, name);
    assert Children([d], name) == [Child(d, name)];
  }

  lemma SingleNone()
    ensures Single(None) == EMPTY
  {
    forall name ensures name !in Single(None).entries { SingleEntry(None, name); }
    assert Single(None).entries == map[];
  }

  /** Where the last layer to show a name is, when there is one. */
  lemma {:induction false} WinnerAt(ds: Layers, name: bytes) returns (j: nat)
    ensures Winner(ds, name).Some? ==> j < |ds| && Shown(ds[j], name) == Winner(ds, name)
    ensures Winner(ds, name).None? ==> j == 0
    ensures forall i :: 0 <= i < |ds| && (Winner(ds, name).None? || i > j) ==> Shown(ds[i], name).None?
  {
    if ds == [] {
      j := 0;
    } else if Shown(ds[|ds| - 1], name).Some? {
      j := |ds| - 1;
    } else {
      j := WinnerAt(ds[..|ds| - 1], name);
    }
  }

  /** One step of the fold, under one name. */
  lemma FoldStep(ds: Layers, name: bytes)
    requires ds != []
    ensures var init, d := Fold(ds[..|ds| - 1]).entries, ds[|ds| - 1];
            && (name in Fold(ds).entries <==> name in init || Shown(d, name).Some?)
            && (Shown(d, name).None? && name in init ==> Fold(ds).entries[name] == init[name])
            && (Shown(d, name).Some? ==>
                  Fold(ds).entries[name]
                  == if name in init then Merge(init[name], Entry([d], name)) else Entry([d], name))
  {
    SingleEntry(ds[|ds| - 1], name);
  }

  /** Where the layers start that no layer after them hides under this name: behind the last one that shows something
      else than a directory. */
  ghost function Cut(ds: Layers, name: bytes): (c: nat)
    ensures c <= |ds|
  {
    if ds == [] then 0 else if OtherAt(ds[|ds| - 1], name) then |ds| else Cut(ds[..|ds| - 1], name)
  }

  /** What those layers have below the name, and what the layers before them have. */
  ghost function Open(ds: Layers, name: bytes): Layers {
    Children(ds[Cut(ds, name)..], name)
  }

  ghost function Hidden(ds: Layers, name: bytes): Layers {
    Children(ds[..Cut(ds, name)], name)
  }

  lemma HiddenThenOpen(ds: Layers, name: bytes)
    ensures Children(ds, name) == Hidden(ds, name) + Open(ds, name)
  {
  }

  /** What the fold has under a name: the last entry, or the fold of what the layers not hidden have below it. */
  ghost predicate FoldedAt(ds: Layers, name: bytes) {
    && (name in Fold(ds).entries <==> Winner(ds, name).Some?)
    && (Winner(ds, name).Some? ==>
          Fold(ds).entries[name]
          == if Winner(ds, name).value.Folder? then Fold(Open(ds, name)) else Entry(ds, name))
  }

  lemma {:induction false} FoldEntry(ds: Layers, name: bytes)
    ensures FoldedAt(ds, name)
  {
    if ds != [] {
      FoldEntry(ds[..|ds| - 1], name);
      if FolderAt(ds[|ds| - 1], name) {
        FoldAddsFolder(ds, name);
      } else if Shown(ds[|ds| - 1], name).Some? {
        FoldOther(ds, name);
      } else {
        FoldSkips(ds, name);
      }
    }
  }

  lemma OpenSnoc(ds: Layers, name: bytes)
    requires ds != [] && !OtherAt(ds[|ds| - 1], name)
    ensures Open(ds, name) == Open(ds[..|ds| - 1], name) + [Child(ds[|ds| - 1], name)]
  {
    var init, d := ds[..|ds| - 1], ds[|ds| - 1];
    var c := Cut(init, name);
    assert ds[c..] == init[c..] + [d];
  }

  lemma FoldSnoc(ds: Layers, d: Option<Listing>)
    ensures Fold(ds + [d]) == Merge(Fold(ds), Single(d))
  {
    assert (ds + [d])[..|ds|] == ds;
  }

  /** A layer that shows nothing under a name has no directory there. */
  lemma UnshownChild(d: Option<Listing>, name: bytes)
    requires Shown(d, name).None? && name != GIT
    ensures Child(d, name).None?
  {
  }

  /** When the last thing shown is no directory, the layers after it have nothing below the name. */
  lemma {:induction false} OpenIsBare(ds: Layers, name: bytes)
    requires name != GIT && (Winner(ds, name).Some? ==> !Winner(ds, name).value.Folder?)
    ensures Fold(Open(ds, name)) == EMPTY
  {
    if ds != [] && !OtherAt(ds[|ds| - 1], name) {
      OpenIsBare(ds[..|ds| - 1], name);
      OpenSnoc(ds, name);
      UnshownChild(ds[|ds| - 1], name);
      FoldSnoc(Open(ds[..|ds| - 1], name), None);
      SingleNone();
      MergeEmpty(EMPTY);
    }
  }

  lemma FoldAddsFolder(ds: Layers, name: bytes)
    requires ds != [] && FolderAt(ds[|ds| - 1], name)
    requires FoldedAt(ds[..|ds| - 1], name)
    ensures FoldedAt(ds, name)
  {
    var init, d := ds[..|ds| - 1], ds[|ds| - 1];
    FoldStep(ds, name);
    SingleEntry(d, name);
    OpenSnoc(ds, name);
    FoldSnoc(Open(init, name), Child(d, name));
    if Winner(init, name).None? || !Winner(init, name).value.Folder? {
      OpenIsBare(init, name);
      MergeEmpty(Single(Child(d, name)));
      if Winner(init, name).Some? {
        EntryIsLeaf(init, name);
      }
    }
  }

  lemma FoldOther(ds: Layers, name: bytes)
    requires ds != [] && OtherAt(ds[|ds| - 1], name)
    ensures FoldedAt(ds, name)
  {
    FoldStep(ds, name);
    assert [ds[|ds| - 1]][..0] == [];
    EntryIsLeaf([ds[|ds| - 1]], name);
  }

  lemma EntryIsLeaf(ds: Layers, name: bytes)
    requires Winner(ds, name).Some? && !Winner(ds, name).value.Folder?
    ensures !Entry(ds, name).Dir?
  {
    var j := WinnerAt(ds, name);
    assert Visible(name, Winner(ds, name).value);
  }

  lemma FoldSkips(ds: Layers, name: bytes)
    requires ds != [] && Shown(ds[|ds| - 1], name).None?
    requires FoldedAt(ds[..|ds| - 1], name)
    ensures FoldedAt(ds, name)
  {
    var init, d := ds[..|ds| - 1], ds[|ds| - 1];
    FoldStep(ds, name);
    if Winner(init, name).Some? {
      assert name != GIT by { var j := WinnerAt(init, name); }
      if Winner(ds, name).value.Folder? {
        OpenSnoc(ds, name);
        UnshownChild(d, name);
        FoldSnoc(Open(init, name), None);
        SingleNone();
        MergeEmpty(Fold(Open(init, name)));
      } else {
        EntrySkips(ds, name);
      }
    }
  }

  lemma EntrySkips(ds: Layers, name: bytes)
    requires ds != [] && Shown(ds[|ds| - 1], name).None? && Winner(ds, name).Some?
    requires !Winner(ds, name).value.Folder?
    ensures Entry(ds, name) == Entry(ds[..|ds| - 1], name)
  {
    var j := WinnerAt(ds, name);
    assert Visible(name, Winner(ds, name).value);
  }

  // ------------------------------------------- exactly when walk and fold agree

  /** Everything in one tree is in the other, with the same content. */
  ghost predicate Included(t: Tree, u: Tree) {
    || t == u
    || (t.Dir? && u.Dir?
        && forall name :: name in t.entries ==> name in u.entries && Included(t.entries[name], u.entries[name]))
  }

  lemma {:induction false} IncludedBoth(t: Tree, u: Tree)
    requires Included(t, u) && Included(u, t)
    ensures t == u
    decreases t
  {
    if t.Dir? && u.Dir? {
      forall name | name in t.entries
        ensures name in u.entries && t.entries[name] == u.entries[name]
      {
        IncludedBoth(t.entries[name], u.entries[name]);
      }
      assert t.entries == u.entries;
    }
  }

  lemma {:induction false} IncludedOn(t: Tree, u: Tree, v: Tree)
    requires Included(t, u) && Included(u, v)
    ensures Included(t, v)
    decreases t
  {
    if t != u && u != v {
      forall name | name in t.entries
        ensures name in v.entries && Included(t.entries[name], v.entries[name])
      {
        IncludedOn(t.entries[name], u.entries[name], v.entries[name]);
      }
    }
  }

  lemma {:induction false} WinnerJoin(pre: Layers, post: Layers, name: bytes)
    ensures Winner(pre + post, name) == if Winner(post, name).Some? then Winner(post, name) else Winner(pre, name)
  {
    if post == [] {
      assert pre + post == pre;
    } else {
      assert (pre + post)[..|pre + post| - 1] == pre + post[..|post| - 1];
      WinnerJoin(pre, post[..|post| - 1], name);
    }
  }

  lemma ChildrenJoin(pre: Layers, post: Layers, name: bytes)
    ensures Children(pre + post, name) == Children(pre, name) + Children(post, name)
  {
  }

  lemma {:induction false} TotalJoin(pre: Layers, post: Layers)
    ensures Total(pre + post) == Total(pre) + Total(post)
  {
    if post == [] {
      assert pre + post == pre;
    } else {
      assert (pre + post)[..|pre + post| - 1] == pre + post[..|post| - 1];
      TotalJoin(pre, post[..|post| - 1]);
    }
  }

  lemma OpenLower(ds: Layers, name: bytes)
    requires Winner(ds, name).Some?
    ensures Total(Open(ds, name)) < Total(ds)
  {
    ChildrenLower(ds, name);
    HiddenThenOpen(ds, name);
    TotalJoin(Hidden(ds, name), Open(ds, name));
  }

  /** Layers put before others only add to what the walk sees: the later ones win. */
  lemma {:induction false} WalkGrows(pre: Layers, post: Layers)
    ensures Included(Walk(post), Walk(pre + post))
    decreases Total(post)
  {
    forall name | name in Walk(post).entries
      ensures name in Walk(pre + post).entries && Included(Walk(post).entries[name], Walk(pre + post).entries[name])
    {
      WinnerJoin(pre, post, name);
      if Winner(post, name).value.Folder? {
        ChildrenLower(post, name);
        ChildrenJoin(pre, post, name);
        WalkGrows(Children(pre, name), Children(post, name));
      } else {
        LeafJoin(pre, post, name);
      }
    }
  }

  lemma LeafJoin(pre: Layers, post: Layers, name: bytes)
    requires Winner(post, name).Some? && !Winner(post, name).value.Folder?
    ensures Winner(pre + post, name).Some? && Entry(pre + post, name) == Entry(post, name)
  {
    WinnerJoin(pre, post, name);
    var j := WinnerAt(post, name);
    assert Visible(name, Winner(post, name).value);
  }

  /** The later layers show, at every depth, whatever the earlier ones would add. */
  ghost predicate Covered(pre: Layers, post: Layers)
    decreases Total(pre)
  {
    forall name :: Winner(pre, name).Some? ==>
      && Winner(post, name).Some?
      && (Winner(post, name).value.Folder? ==>
            (ChildrenLower(pre, name); Covered(Children(pre, name), Children(post, name))))
  }

  lemma {:induction false} CoveredAddsNothing(pre: Layers, post: Layers)
    requires Covered(pre, post)
    ensures Walk(pre + post) == Walk(post)
    decreases Total(post)
  {
    forall name
      ensures name in Walk(pre + post).entries <==> name in Walk(post).entries
      ensures name in Walk(post).entries ==> Walk(pre + post).entries[name] == Walk(post).entries[name]
    {
      WinnerJoin(pre, post, name);
      if Winner(post, name).Some? {
        if Winner(post, name).value.Folder? {
          ChildrenLower(post, name);
          ChildrenJoin(pre, post, name);
          BelowCovered(pre, post, name);
          CoveredAddsNothing(Children(pre, name), Children(post, name));
        } else {
          LeafJoin(pre, post, name);
        }
      }
    }
    assert Walk(pre + post).entries == Walk(post).entries;
  }

  lemma BelowCovered(pre: Layers, post: Layers, name: bytes)
    requires Covered(pre, post) && Winner(post, name).Some? && Winner(post, name).value.Folder?
    ensures Covered(Children(pre, name), Children(post, name))
  {
    if Winner(pre, name).None? {
      var j := WinnerAt(post, name);
      var k := WinnerAt(pre, name);
      forall i | 0 <= i < |pre|
        ensures Children(pre, name)[i].None?
      {
        UnshownChild(pre[i], name);
      }
      NobodyWins(Children(pre, name));
    }
  }

  lemma {:induction false} NobodyWins(ds: Layers)
    requires forall i :: 0 <= i < |ds| ==> ds[i].None?
    ensures forall name :: Winner(ds, name).None?
  {
    if ds != [] {
      NobodyWins(ds[..|ds| - 1]);
    }
  }

  lemma {:induction false} AddsNothingCovers(pre: Layers, post: Layers)
    requires Walk(pre + post) == Walk(post)
    ensures Covered(pre, post)
    decreases Total(post)
  {
    forall name | Winner(pre, name).Some?
      ensures Winner(post, name).Some?
      ensures Winner(post, name).value.Folder? ==>
                (ChildrenLower(pre, name); Covered(Children(pre, name), Children(post, name)))
    {
      WinnerJoin(pre, post, name);
      assert name in Walk(pre + post).entries;
      assert name in Walk(post).entries;
      if Winner(post, name).value.Folder? {
        ChildrenLower(post, name);
        ChildrenJoin(pre, post, name);
        assert Entry(pre + post, name) == Entry(post, name);
        AddsNothingCovers(Children(pre, name), Children(post, name));
      }
    }
  }

  /** No directory hidden behind something else shows an entry that the layers after it do not. */
  ghost predicate NothingHidden(ds: Layers)
    decreases Total(ds)
  {
    forall name :: Winner(ds, name).Some? && Winner(ds, name).value.Folder? ==>
      && Covered(Hidden(ds, name), Open(ds, name))
      && (OpenLower(ds, name); NothingHidden(Open(ds, name)))
  }

  /** What folding gives is always part of what the walk sees. */
  lemma {:induction false} FoldInWalk(ds: Layers)
    ensures Included(Fold(ds), Walk(ds))
    decreases Total(ds)
  {
    forall name | name in Fold(ds).entries
      ensures name in Walk(ds).entries && Included(Fold(ds).entries[name], Walk(ds).entries[name])
    {
      FoldEntry(ds, name);
      if Winner(ds, name).value.Folder? {
        OpenLower(ds, name);
        FoldInWalk(Open(ds, name));
        WalkGrows(Hidden(ds, name), Open(ds, name));
        HiddenThenOpen(ds, name);
        IncludedOn(Fold(Open(ds, name)), Walk(Open(ds, name)), Walk(Children(ds, name)));
      }
    }
  }

  lemma {:induction false} NothingHiddenFolds(ds: Layers)
    requires NothingHidden(ds)
    ensures Walk(ds) == Fold(ds)
    decreases Total(ds)
  {
    forall name
      ensures name in Walk(ds).entries <==> name in Fold(ds).entries
      ensures name in Walk(ds).entries ==> Walk(ds).entries[name] == Fold(ds).entries[name]
    {
      FoldEntry(ds, name);
      if Winner(ds, name).Some? && Winner(ds, name).value.Folder? {
        OpenLower(ds, name);
        NothingHiddenFolds(Open(ds, name));
        CoveredAddsNothing(Hidden(ds, name), Open(ds, name));
        HiddenThenOpen(ds, name);
      }
    }
    assert Walk(ds).entries == Fold(ds).entries;
  }

  lemma {:induction false} FoldedHidesNothing(ds: Layers)
    requires Walk(ds) == Fold(ds)
    ensures NothingHidden(ds)
    decreases Total(ds)
  {
    forall name | Winner(ds, name).Some? && Winner(ds, name).value.Folder?
      ensures Covered(Hidden(ds, name), Open(ds, name))
      ensures (OpenLower(ds, name); NothingHidden(Open(ds, name)))
    {
      var pre, post := Hidden(ds, name), Open(ds, name);
      FoldEntry(ds, name);
      OpenLower(ds, name);
      HiddenThenOpen(ds, name);
      assert name in Walk(ds).entries && Walk(ds).entries[name] == Walk(pre + post);
      FoldInWalk(post);
      WalkGrows(pre, post);
      IncludedBoth(Fold(post), Walk(post));
      FoldedHidesNothing(post);
      AddsNothingCovers(pre, post);
    }
  }

  /** The multi-directory walk sees what merging the layers one by one gives exactly when nothing hidden shows. */
  lemma WalkIsFoldExactly(ds: Layers)
    ensures Walk(ds) == Fold(ds) <==> NothingHidden(ds)
  {
    if NothingHidden(ds) {
      NothingHiddenFolds(ds);
    }
    if Walk(ds) == Fold(ds) {
      FoldedHidesNothing(ds);
    }
  }

  // ---------------------------------------------------------------- tame layers

  lemma TameHidesNothing(ds: Layers, name: bytes)
    requires TameAt(ds, name) && Winner(ds, name).Some? && Winner(ds, name).value.Folder?
    ensures forall i :: 0 <= i < |Hidden(ds, name)| ==> Hidden(ds, name)[i].None?
  {
    var k := WinnerAt(ds, name);
    var c := Cut(ds, name);
    CutBehindOther(ds, name);
    forall i | 0 <= i < c
      ensures Hidden(ds, name)[i].None?
    {
      if Shown(ds[i], name).None? {
        UnshownChild(ds[i], name);
      } else {
        assert OtherAt(ds[c - 1], name) && FolderAt(ds[k], name);
      }
    }
  }

  lemma {:induction false} CutBehindOther(ds: Layers, name: bytes)
    ensures var c := Cut(ds, name);
            && (c > 0 ==> OtherAt(ds[c - 1], name))
            && forall i :: c <= i < |ds| ==> !OtherAt(ds[i], name)
  {
    if ds != [] && !OtherAt(ds[|ds| - 1], name) {
      CutBehindOther(ds[..|ds| - 1], name);
    }
  }

  lemma TameAtDrops(nones: Layers, ds: Layers, name: bytes)
    requires TameAt(nones + ds, name)
    ensures TameAt(ds, name)
  {
    var n := |nones|;
    assert forall i :: 0 <= i < |ds| ==> (nones + ds)[n + i] == ds[i];
  }

  lemma {:induction false} TameDrops(nones: Layers, ds: Layers)
    requires Tame(nones + ds) && forall i :: 0 <= i < |nones| ==> nones[i].None?
    ensures Tame(ds)
    decreases Total(ds)
  {
    NobodyWins(nones);
    forall name | Winner(ds, name).Some?
      ensures TameAt(ds, name) && (ChildrenLower(ds, name); Tame(Children(ds, name)))
    {
      hide TameAt;
      WinnerJoin(nones, ds, name);
      TameAtDrops(nones, ds, name);
      ChildrenLower(ds, name);
      ChildrenLower(nones + ds, name);
      ChildrenJoin(nones, ds, name);
      TameDrops(Children(nones, name), Children(ds, name));
    }
  }

  /** Tame layers hide nothing, so the walk sees what merging them one by one gives. */
  lemma {:induction false} WalkIsFold(ds: Layers)
    requires Tame(ds)
    ensures NothingHidden(ds) && Walk(ds) == Fold(ds)
    decreases Total(ds)
  {
    forall name | Winner(ds, name).Some? && Winner(ds, name).value.Folder?
      ensures Covered(Hidden(ds, name), Open(ds, name))
      ensures (OpenLower(ds, name); NothingHidden(Open(ds, name)))
    {
      TameHidesNothing(ds, name);
      NobodyWins(Hidden(ds, name));
      OpenLower(ds, name);
      ChildrenLower(ds, name);
      HiddenThenOpen(ds, name);
      TameDrops(Hidden(ds, name), Open(ds, name));
      WalkIsFold(Open(ds, name));
    }
    WalkIsFoldExactly(ds);
  }

  const X: bytes := [120]
  const Y: bytes := [121]

  /** The name x as a directory holding a file x, as a file, and as a directory holding a file y. */
  function Untamed(): Layers {
    [Some([Item(X, Folder([Item(X, File(false, []))]))]),
     Some([Item(X, File(false, []))]),
     Some([Item(X, Folder([Item(Y, File(false, []))]))])]
  }

  lemma UntamedShown()
    ensures FolderAt(Untamed()[0], X) && OtherAt(Untamed()[1], X) && FolderAt(Untamed()[2], X)
    ensures Children(Untamed(), X)
         == [Some([Item(X, File(false, []))]), None, Some([Item(Y, File(false, []))])]
  {
    LookupOne(Untamed()[0].value[0], X);
    LookupOne(Untamed()[1].value[0], X);
    LookupOne(Untamed()[2].value[0], X);
  }

  lemma UntamedWalk()
    ensures Winner(Untamed(), X).Some? && Winner(Untamed(), X).value.Folder?
    ensures X in Walk(Children(Untamed(), X)).entries
  {
    UntamedShown();
    var below := Children(Untamed(), X);
    LookupOne(Item(X, File(false, [])), X);
    LookupOne(Item(Y, File(false, [])), X);
    assert below[..2][..1] == [below[0]];
    assert Winner(below, X) == Winner(below[..2], X) == Winner(below[..2][..1], X);
  }

  lemma UntamedFold()
    ensures X in Fold(Untamed()).entries && Fold(Untamed()).entries[X].Dir?
    ensures X !in Fold(Untamed()).entries[X].entries
  {
    UntamedShown();
    var ds := Untamed();
    assert ds[..2][|ds[..2]| - 1] == ds[1];
    FoldOther(ds[..2], X);
    EntryIsLeaf(ds[..2], X);
    FoldStep(ds, X);
    SingleEntry(ds[2], X);
    LookupOne(Item(X, Folder([Item(Y, File(false, []))])), X);
    LookupOne(Item(Y, File(false, [])), X);
    SingleEntry(Child(ds[2], X), X);
  }

  /** Without tameness the two differ: a directory replaced by a file and then by a directory again keeps its old entries. */
  lemma UntamedDiffers()
    ensures !Tame(Untamed()) && Walk(Untamed()) != Fold(Untamed())
  {
    UntamedShown();
    UntamedWalk();
    UntamedFold();
    ChildrenLower(Untamed(), X);
    assert Walk(Untamed()).entries[X] == Walk(Children(Untamed(), X));
    assert !TameAt(Untamed(), X);
  }

  lemma LookupOne(item: Item, name: bytes)
    ensures Lookup([item], name) == if item.name == name then Some(item.node) else None
  {
    assert [item][..0] == [];
  }

  // ------------------------------------------------- what the walk sees

  /** The layer has this entry, whatever it is. */
  ghost predicate Holds(d: Option<Listing>, name: bytes, n: Node) {
    d.Some? && Item(name, n) in d.value
  }

  /** Git's own directory and what is neither file, directory nor link are passed over. */
  ghost predicate Considered(name: bytes, n: Node) {
    name != Ascii(".git") && n != Special
  }

  lemma {:induction false} LookupHolds(l: Listing, name: bytes, n: Node)
    requires WellFormedListing(l)
    ensures Lookup(l, name) == Some(n) <==> Item(name, n) in l
  {
    if l != [] {
      var init, last := l[..|l| - 1], l[|l| - 1];
      assert l == init + [last];
      LookupHolds(init, name, n);
    }
  }

  lemma ShownHolds(d: Option<Listing>, name: bytes, n: Node)
    requires d.Some? ==> WellFormedListing(d.value)
    ensures Shown(d, name) == Some(n) <==> Holds(d, name, n) && Considered(name, n)
  {
    assert GIT == Ascii(".git");
    if d.Some? {
      LookupHolds(d.value, name, n);
    }
  }

  /** What a layer has below one of its entries: links to directories are followed, other links are not. */
  ghost predicate Below(d: Option<Listing>, name: bytes, sub: Option<Listing>) {
    if sub.None? then forall n :: Holds(d, name, n) ==> !n.Folder? && !n.LinkToDir?
    else Holds(d, name, Folder(sub.value)) || exists target :: Holds(d, name, LinkToDir(target, sub.value))
  }

  lemma ChildBelow(d: Option<Listing>, name: bytes)
    requires d.Some? ==> WellFormedListing(d.value)
    ensures Below(d, name, Child(d, name))
  {
    if d.Some? {
      forall n
        ensures Lookup(d.value, name) == Some(n) <==> Holds(d, name, n)
      {
        LookupHolds(d.value, name, n);
      }
      if Child(d, name).Some? {
        var n := Lookup(d.value, name).value;
        assert Holds(d, name, n);
        assert n.LinkToDir? ==> Holds(d, name, LinkToDir(n.target, n.listing));
      }
    }
  }

  /** What a layer's entry is in the tree; a directory is the walk over what all layers have below it. */
  ghost predicate Becomes(ds: Layers, name: bytes, n: Node, t: Tree) {
    match n
    case File(exec, content) => t == Blob(exec, content)
    case Link(target) => t == Symlink(target)
    case LinkToDir(target, _) => t == Symlink(target)
    case Folder(_) =>
      exists subs: Layers :: |subs| == |ds| && t == Walk(subs) && forall i :: 0 <= i < |ds| ==> Below(ds[i], name, subs[i])
    case Special => false
  }

  lemma LastWins(ds: Layers, i: nat, name: bytes, n: Node)
    requires Sane(ds) && i < |ds| && Holds(ds[i], name, n) && Considered(name, n)
    requires forall j, m :: i < j < |ds| && Holds(ds[j], name, m) ==> !Considered(name, m)
    ensures Winner(ds, name) == Some(n)
  {
    hide Holds, Considered, Shown;
    var k := WinnerAt(ds, name);
    ShownHolds(ds[i], name, n);
    if Shown(ds[k], name).Some? {
      ShownHolds(ds[k], name, Shown(ds[k], name).value);
    }
  }

  lemma EntryBecomes(ds: Layers, name: bytes)
    requires Sane(ds) && Winner(ds, name).Some? && Winner(ds, name) != Some(Special)
    ensures Becomes(ds, name, Winner(ds, name).value, Entry(ds, name))
  {
    hide Winner, Below, WellFormedListing, Walk;
    if Winner(ds, name).value.Folder? {
      ChildrenLower(ds, name);
      forall j | 0 <= j < |ds|
        ensures Below(ds[j], name, Children(ds, name)[j])
      {
        ChildBelow(ds[j], name);
      }
      assert Entry(ds, name) == Walk(Children(ds, name));
    }
  }

  /** The walk sees a name exactly when some layer has a considered entry of it, and then what the last such layer has. */
  lemma WalkSees(ds: Layers, i: nat, name: bytes, n: Node)
    requires Sane(ds) && i < |ds| && Holds(ds[i], name, n) && Considered(name, n)
    requires forall j, m :: i < j < |ds| && Holds(ds[j], name, m) ==> !Considered(name, m)
    ensures name in Walk(ds).entries && Becomes(ds, name, n, Walk(ds).entries[name])
  {
    assert n != Special;
    hide Holds, Considered, Winner, Sane, Becomes, Entry;
    LastWins(ds, i, name, n);
    EntryBecomes(ds, name);
    assert Walk(ds).entries[name] == Entry(ds, name);
  }

  lemma WalkSeesNoOther(ds: Layers, name: bytes)
    requires Sane(ds) && name in Walk(ds).entries
    ensures exists i, n :: 0 <= i < |ds| && Holds(ds[i], name, n) && Considered(name, n)
  {
    var k := WinnerAt(ds, name);
    ShownHolds(ds[k], name, Shown(ds[k], name).value);
  }

  // ------------------------------------------------------------- the code

  /** Puts the entries of one directory over those collected before. */
  method CollectListing(l: Listing, before: map<bytes, Node>) returns (entryMap: map<bytes, Node>)
    requires WellFormedListing(l)
    ensures forall name :: name in entryMap <==> name in before || Shown(Some(l), name).Some?
    ensures forall name :: name in entryMap ==>
              if Shown(Some(l), name).Some? then Shown(Some(l), name) == Some(entryMap[name])
              else name in before && entryMap[name] == before[name]
  {
    entryMap := before;
    for j := 0 to |l|
      invariant forall name :: name in entryMap <==> name in before || Shown(Some(l[..j]), name).Some?
      invariant forall name :: name in entryMap ==>
                  if Shown(Some(l[..j]), name).Some? then Shown(Some(l[..j]), name) == Some(entryMap[name])
                  else name in before && entryMap[name] == before[name]
    {
      var item := l[j];
      assert l[..j + 1][..j] == l[..j] && l[..j + 1][j] == item;
      assert Lookup(l[..j], item.name).None? by {
        LookupNamed(l[..j], item.name);
      }
      if item.name == GIT || item.node.Special? {
        continue;
      }
      entryMap := entryMap[item.name := item.node];
    }
    assert l[..|l|] == l;
  }

  /** Builds the overlay of the directories found at a path, as the loops over dir_paths and os.listdir do. */
  method Collect(roots: seq<Node>, path: seq<bytes>) returns (entryMap: map<bytes, Node>)
    requires Sane(DirsAt(roots, path))
    ensures forall name :: name in entryMap <==> Winner(DirsAt(roots, path), name).Some?
    ensures forall name :: name in entryMap ==> Winner(DirsAt(roots, path), name) == Some(entryMap[name])
  {
    ghost var ds := DirsAt(roots, path);
    entryMap := map[];
    for i := 0 to |roots|
      invariant forall name :: name in entryMap <==> Winner(ds[..i], name).Some?
      invariant forall name :: name in entryMap ==> Winner(ds[..i], name) == Some(entryMap[name])
    {
      var d := At(roots[i], path);
      assert ds[..i + 1][..i] == ds[..i] && ds[..i + 1][i] == d;
      if d.None? {
        continue;
      }
      assert WellFormedListing(ds[i].value);
      entryMap := CollectListing(d.value, entryMap);
    }
    assert ds[..|roots|] == ds;
  }

  /** Directories sort as if their name ended in a slash. */
  function ItemKey(item: Item): bytes {
    if item.node.Folder? then item.name + [SLASH] else item.name
  }

  /** Python's sorted over the items of a dict, taken in any order. */
  method SortItems(entryMap: map<bytes, Node>) returns (items: seq<Item>)
    requires forall name :: name in entryMap ==> GoodName(name)
    ensures Sorted(ItemKey, items)
    ensures forall x :: x in items <==> x.name in entryMap && entryMap[x.name] == x.node
  {
    items := [];
    var rest := entryMap.Keys;
    while rest != {}
      invariant rest <= entryMap.Keys
      invariant Sorted(ItemKey, items)
      invariant forall x :: x in items <==> x.name in entryMap && x.name !in rest && entryMap[x.name] == x.node
    {
      var name :| name in rest;
      var item := Item(name, entryMap[name]);
      forall y | y in items ensures ItemKey(y) != ItemKey(item) { ItemKeysTellNames(item, y); }
      InsertSorts(ItemKey, item, items);
      InsertKeeps(ItemKey, item, items);
      items := Insert(ItemKey, item, items);
      rest := rest - {name};
    }
  }

  lemma ItemKeysTellNames(x: Item, y: Item)
    requires GoodName(x.name) && GoodName(y.name) && x.name != y.name
    ensures ItemKey(x) != ItemKey(y)
  {
    if ItemKey(x) == ItemKey(y) {
      var h := seq(20, _ => 0);
      KeysTellNames(Record(if x.node.Folder? then DirMode else Regular, x.name, h),
                    Record(if y.node.Folder? then DirMode else Regular, y.name, h));
    }
  }

  lemma ChildrenAt(roots: seq<Node>, path: seq<bytes>, name: bytes)
    ensures DirsAt(roots, path + [name]) == Children(DirsAt(roots, path), name)
  {
    assert (path + [name])[..|path|] == path;
  }

  /** Two lists of layers have one checksum only if the walk sees the same tree in both, or two byte strings collide. */
  lemma SameChecksum(H: bytes -> bytes, ds: Layers, es: Layers) returns (x: bytes, y: bytes)
    requires Digest(H) && Sane(ds) && Sane(es)
    requires (WalkGood(ds); WalkGood(es); Hash(H, Walk(ds)) == Hash(H, Walk(es)))
    ensures Walk(ds) == Walk(es) || (x != y && H(x) == H(y))
  {
    WalkGood(ds);
    WalkGood(es);
    x, y := [], [];
    if Walk(ds) != Walk(es) {
      x, y := Collision(H, Walk(ds), Walk(es));
    }
  }

  /** The recursive checksum of the layers at a relative path. */
  method TreeHash(H: bytes -> bytes, roots: seq<Node>, path: seq<bytes>) returns (h: bytes)
    requires Digest(H) && Sane(DirsAt(roots, path))
    ensures Good(Walk(DirsAt(roots, path))) && h == Hash(H, Walk(DirsAt(roots, path)))
    decreases Total(DirsAt(roots, path)), 2
  {
    ghost var ds := DirsAt(roots, path);
    ghost var t := Walk(ds);
    WalkGood(ds);
    var entryMap := Collect(roots, path);
    forall name | name in entryMap ensures GoodName(name) { WinnerSane(ds, name); }
    var items := SortItems(entryMap);
    var entries := HashItems(H, roots, path, items);
    forall name | name in t.entries
      ensures exists x :: x in items && x.name == name
    {
      assert Item(name, entryMap[name]) in items;
    }
    SortedRecords(H, t, items, entries);
    var body := EncodeEntries(entries);
    h := H(Framed(TREE, body));
  }

  /** The records of the entries, in their order. */
  method HashItems(H: bytes -> bytes, roots: seq<Node>, path: seq<bytes>, items: seq<Item>)
      returns (entries: seq<Record>)
    requires Digest(H) && Sane(DirsAt(roots, path)) && Good(Walk(DirsAt(roots, path)))
    requires forall x :: x in items ==> Winner(DirsAt(roots, path), x.name) == Some(x.node)
    ensures |entries| == |items|
    ensures forall k :: 0 <= k < |items| ==> Hashed(H, Walk(DirsAt(roots, path)), items[k], entries[k])
    decreases Total(DirsAt(roots, path)), 1
  {
    hide Walk, Winner, Sane, Good, RecordOf, KeyOf, ItemKey, Hashed;
    entries := [];
    for i := 0 to |items|
      invariant |entries| == i
      invariant forall k :: 0 <= k < i ==> Hashed(H, Walk(DirsAt(roots, path)), items[k], entries[k])
    {
      assert items[i] in items;
      var record := HashItem(H, roots, path, items[i]);
      entries := entries + [record];
    }
  }

  ghost predicate Hashed(H: bytes -> bytes, t: Tree, item: Item, record: Record) {
    && Digest(H) && t.Dir? && Good(t) && item.name in t.entries
    && record == RecordOf(H, t, item.name)
    && KeyOf(record) == ItemKey(item)
  }

  /** The record of one entry of the overlay. */
  method HashItem(H: bytes -> bytes, roots: seq<Node>, path: seq<bytes>, item: Item) returns (record: Record)
    requires Digest(H) && Sane(DirsAt(roots, path)) && Good(Walk(DirsAt(roots, path)))
    requires Winner(DirsAt(roots, path), item.name) == Some(item.node)
    ensures Hashed(H, Walk(DirsAt(roots, path)), item, record)
    decreases Total(DirsAt(roots, path)), 0
  {
    var name := item.name;
    ghost var ds := DirsAt(roots, path);
    assert Walk(ds).entries[name] == Entry(ds, name);
    WinnerShown(ds, name);
    match item.node {
      case Link(target) =>
        record := Record(LinkMode, name, BlobHash(H, target));
      case LinkToDir(target, _) =>
        record := Record(LinkMode, name, BlobHash(H, target));
      case Folder(_) =>
        ChildrenAt(roots, path, name);
        ChildrenLower(ds, name);
        ChildrenSane(ds, name);
        var sub := TreeHash(H, roots, path + [name]);
        record := Record(DirMode, name, sub);
      case File(exec, content) =>
        record := Record(if exec then Executable else Regular, name, BlobHash(H, content));
    }
  }

  method EncodeEntries(entries: seq<Record>) returns (body: bytes)
    ensures body == EncodeAll(entries)
  {
    body := [];
    for i := 0 to |entries|
      invariant body == EncodeAll(entries[..i])
    {
      EncodeSnoc(entries[..i], entries[i]);
      assert entries[..i + 1] == entries[..i] + [entries[i]];
      body := body + entries[i].Encode();
    }
    assert entries[..|entries|] == entries;
  }

  lemma WinnerShown(ds: Layers, name: bytes)
    requires Winner(ds, name).Some?
    ensures !Winner(ds, name).value.Special?
  {
    var j := WinnerAt(ds, name);
    assert Visible(name, Winner(ds, name).value);
  }

  /** The entries collected in sorted item order are the records of the tree in canonical order. */
  lemma SortedRecords(H: bytes -> bytes, t: Tree, items: seq<Item>, entries: seq<Record>)
    requires Digest(H) && t.Dir? && Good(t)
    requires Sorted(ItemKey, items) && |entries| == |items|
    requires forall k :: 0 <= k < |items| ==> Hashed(H, t, items[k], entries[k])
    requires forall name :: name in t.entries ==> exists x :: x in items && x.name == name
    ensures entries == Sort(KeyOf, Records(H, t))
  {
    assert Sorted(KeyOf, entries);
    forall r ensures r in entries <==> r in Records(H, t) {
      if r in Records(H, t) {
        var x :| x in items && x.name == r.name;
        var k :| 0 <= k < |items| && items[k] == x;
        assert entries[k] == r;
      }
    }
    SortUnique(KeyOf, entries, Sort(KeyOf, Records(H, t)));
  }

  lemma {:induction false} EncodeSnoc(rs: seq<Record>, r: Record)
    ensures EncodeAll(rs + [r]) == EncodeAll(rs) + r.Encode()
  {
    if rs == [] {
      assert [r][1..] == [];
    } else {
      assert (rs + [r])[1..] == rs[1..] + [r];
      EncodeSnoc(rs[1..], r);
    }
  }
}
