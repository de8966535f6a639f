/** Which business process a deployment belongs to, told from the text of its relative path. */
module SlicePaths {
  import opened Options
  import opened Slices

  predicate IsSeparator(c: char) {
    c == '/' || c == '\\'
  }

  /** A piece of a path between separators; it may be empty. */
  predicate IsSegment(s: string) {
    forall i :: 0 <= i < |s| ==> !IsSeparator(s[i])
  }

  lemma {:induction false} PartsOfSegment(s: string)
    requires IsSegment(s)
    ensures Parts(s) == [s]
  {
    if s != "" {
      PartsOfSegment(s[1..]);
      assert s == [s[0]] + s[1..];
    }
  }

  lemma {:induction false} PartsJoin(s: string, separator: char, rest: string)
    requires IsSegment(s) && IsSeparator(separator)
    ensures Parts(s + [separator] + rest) == [s] + Parts(rest)
  {
    var path := s + [separator] + rest;
    if s == "" {
      assert path[0] == separator && path[1..] == rest;
    } else {
      assert path[0] == s[0] && path[1..] == s[1..] + [separator] + rest;
      PartsJoin(s[1..], separator, rest);
      assert s == [s[0]] + s[1..];
      var tail := Parts(path[1..]);
      assert tail[0] == s[1..] && tail[1..] == Parts(rest);
    }
  }

  /** The slug of a segment, or the context's own name if that is empty. */
  function Slug(sanitize: string -> string, segment: string, ctx: string): string {
    if sanitize(segment) != "" then sanitize(segment) else ctx
  }

  function At(path: string): Conf {
    Conf(None, None, None, Some(path), "")
  }

  lemma OnlyThePath(sanitize: string -> string, conf: Conf, path: string, ctx: string)
    requires conf.relativePath == Some(path)
    ensures DeploymentBp(sanitize, conf, ctx) == DeploymentBp(sanitize, At(path), ctx)
  {
  }

  /** copies/<copy>/<bp>/<anything>, with either separator: the third segment. */
  lemma InCopy(sanitize: string -> string, copy: string, bp: string, rest: string, x: char, y: char, z: char, ctx: string)
    requires IsSegment(copy) && IsSegment(bp) && IsSeparator(x) && IsSeparator(y) && IsSeparator(z)
    ensures DeploymentBp(sanitize, At("copies" + [x] + (copy + [y] + (bp + [z] + rest))), ctx) == Slug(sanitize, bp, ctx)
  {
    PartsJoin("copies", x, copy + [y] + (bp + [z] + rest));
    PartsJoin(copy, y, bp + [z] + rest);
    PartsJoin(bp, z, rest);
    var parts := Parts("copies" + [x] + (copy + [y] + (bp + [z] + rest)));
    assert parts == ["copies"] + ([copy] + ([bp] + Parts(rest)));
    assert parts[2..] == [bp] + Parts(rest);
  }

  /** <bp>/<anything>: the first segment. */
  lemma InMain(sanitize: string -> string, bp: string, rest: string, x: char, ctx: string)
    requires IsSegment(bp) && bp != "copies" && IsSeparator(x)
    ensures DeploymentBp(sanitize, At(bp + [x] + rest), ctx) == Slug(sanitize, bp, ctx)
  {
    PartsJoin(bp, x, rest);
  }

  /** A path with too few segments, or none, tells nothing: the context counts. */
  lemma TooShort(sanitize: string -> string, copy: string, bp: string, x: char, y: char, conf: Conf, ctx: string)
    requires IsSegment(copy) && IsSegment(bp) && IsSeparator(x) && IsSeparator(y)
    ensures DeploymentBp(sanitize, At(bp), ctx) == ctx
    ensures DeploymentBp(sanitize, At("copies" + [x] + copy), ctx) == ctx
    ensures DeploymentBp(sanitize, At("copies" + [x] + (copy + [y] + bp)), ctx) == ctx
    ensures conf.relativePath.None? ==> DeploymentBp(sanitize, conf, ctx) == ctx
  {
    hide Parts;
    PartsOfSegment(bp);
    PartsOfSegment(copy);
    PartsJoin("copies", x, copy);
    PartsJoin("copies", x, copy + [y] + bp);
    PartsJoin(copy, y, bp);
  }

  /** Every path is one segment, or one before a separator and some rest: the cases above are all there are. */
  lemma {:induction false} FirstSegment(path: string) returns (segment: string, x: char, rest: string)
    ensures IsSegment(path) || (IsSegment(segment) && IsSeparator(x) && path == segment + [x] + rest)
  {
    segment, x, rest := "", '/', "";
    if path != "" {
      if IsSeparator(path[0]) {
        x, rest := path[0], path[1..];
      } else {
        segment, x, rest := FirstSegment(path[1..]);
        segment := [path[0]] + segment;
      }
    }
  }

  /** Item i is the first of its context in the dictionary. */
  ghost predicate Leads(items: seq<Item>, i: nat, ctx: string) {
    i < |items| && ContextOf(items[i].conf) == ctx && forall j :: 0 <= j < i ==> ContextOf(items[j].conf) != ctx
  }

  lemma {:induction false} LeaderDecides(sanitize: string -> string, items: seq<Item>, i: nat, ctx: string)
    requires Leads(items, i, ctx)
    ensures BpOfContext(sanitize, items, ctx) == DeploymentBp(sanitize, items[i].conf, ctx)
  {
    if i > 0 {
      assert forall j :: 0 <= j < i - 1 ==> items[1..][j] == items[j + 1];
      LeaderDecides(sanitize, items[1..], i - 1, ctx);
    }
  }

  /** A context is in the slice of one business process only, that of its first deployment. */
  lemma ContextInSlice(sanitize: string -> string, ws: Workspace, bp: string, i: nat, ctx: string)
    requires Leads(ws.items, i, ctx)
    ensures ctx in Slice(sanitize, ws, bp).tree <==> bp == DeploymentBp(sanitize, ws.items[i].conf, ctx)
  {
    LeaderDecides(sanitize, ws.items, i, ctx);
    GroupedContexts(ws.items, ws.tree);
    assert HasContext(ws.items, ctx);
  }

  /** So a copy's context is in the slice of the business process it is a copy of. */
  lemma CopyInSlice(sanitize: string -> string, ws: Workspace, slice: string, i: nat, ctx: string, copy: string,
                    bp: string, rest: string, x: char, y: char, z: char)
    requires Leads(ws.items, i, ctx)
    requires IsSegment(copy) && IsSegment(bp) && IsSeparator(x) && IsSeparator(y) && IsSeparator(z)
    requires ws.items[i].conf.relativePath == Some("copies" + [x] + (copy + [y] + (bp + [z] + rest)))
    ensures ctx in Slice(sanitize, ws, slice).tree <==> slice == Slug(sanitize, bp, ctx)
  {
    ContextInSlice(sanitize, ws, slice, i, ctx);
    OnlyThePath(sanitize, ws.items[i].conf, "copies" + [x] + (copy + [y] + (bp + [z] + rest)), ctx);
    InCopy(sanitize, copy, bp, rest, x, y, z, ctx);
  }

  lemma MainInSlice(sanitize: string -> string, ws: Workspace, slice: string, i: nat, ctx: string, bp: string,
                    rest: string, x: char)
    requires Leads(ws.items, i, ctx) && IsSegment(bp) && bp != "copies" && IsSeparator(x)
    requires ws.items[i].conf.relativePath == Some(bp + [x] + rest)
    ensures ctx in Slice(sanitize, ws, slice).tree <==> slice == Slug(sanitize, bp, ctx)
  {
    ContextInSlice(sanitize, ws, slice, i, ctx);
    OnlyThePath(sanitize, ws.items[i].conf, bp + [x] + rest, ctx);
    InMain(sanitize, bp, rest, x, ctx);
  }
}
