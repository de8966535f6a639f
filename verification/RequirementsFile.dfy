/** Reading and writing the requirements of a business process as an array of TOML tables. */
module RequirementsFile {
  import opened Options
  import opened Text
  import opened Quoting
  import opened Requirements

  const HEADER: string := "[[requirement]]"

  // ------------------------------------------------------------ one key

  datatype Form = MultiDouble | MultiSingle | Double | Single

  /** At the start of a line: the key, an equals sign, blanks around it; then the value. */
  function AfterKey(s: string, key: string): Option<string> {
    if !(key <= s) then None
    else
      var t := SkipBlanks(s[|key|..]);
      if t != [] && t[0] == '=' then Some(SkipBlanks(t[1..])) else None
  }

  function ValueAt(t: string, form: Form): Option<string> {
    match form
    case MultiDouble => if "\"\"\"" <= t then UpTo(t[3..], "\"\"\"") else None
    case MultiSingle => if "'''" <= t then UpTo(t[3..], "'''") else None
    case Double => if t != [] && t[0] == '"' then ScanDouble(t[1..]) else None
    case Single => if t != [] && t[0] == '\'' then UpTo(t[1..], "'") else None
  }

  function MatchAt(s: string, key: string, form: Form): Option<string> {
    match AfterKey(s, key)
    case None => None
    case Some(t) => ValueAt(t, form)
  }

  lemma {:induction false} NextLineShorter(s: string)
    ensures NextLine(s).Some? ==> |NextLine(s).value| < |s|
  {
    if s != [] && s[0] != '\n' {
      NextLineShorter(s[1..]);
    }
  }

  /** The first line of the block at which the pattern matches. */
  function FirstMatch(s: string, key: string, form: Form): Option<string>
    decreases |s|
  {
    if MatchAt(s, key, form).Some? then MatchAt(s, key, form)
    else
      NextLineShorter(s);
      match NextLine(s)
      case None => None
      case Some(t) => FirstMatch(t, key, form)
  }

  function Extract(block: string, key: string): string {
    if FirstMatch(block, key, MultiDouble).Some? then FirstMatch(block, key, MultiDouble).value
    else if FirstMatch(block, key, MultiSingle).Some? then FirstMatch(block, key, MultiSingle).value
    else if FirstMatch(block, key, Double).Some? then Unescape(FirstMatch(block, key, Double).value)
    else if FirstMatch(block, key, Single).Some? then FirstMatch(block, key, Single).value
    else ""
  }

  // --------------------------------------------------------- table headers

  function BlankRun(s: string): (n: nat)
    ensures n <= |s|
  {
    if s != [] && IsBlank(s[0]) then 1 + BlankRun(s[1..]) else 0
  }

  /** The longest run of blanks, of at most n, that ends a line. */
  function LongestEnd(s: string, n: nat): (r: Option<nat>)
    requires n <= |s|
    ensures r.Some? ==> r.value <= n
  {
    if n == |s| || s[n] == '\n' then Some(n) else if n == 0 then None else LongestEnd(s, n - 1)
  }

  /** How long the header is that starts here, if one does. */
  function HeaderAt(s: string): (r: Option<nat>)
    ensures r.Some? ==> 0 < r.value <= |s|
  {
    if !(HEADER <= s) then None
    else
      var rest := s[|HEADER|..];
      match LongestEnd(rest, BlankRun(rest))
      case None => None
      case Some(n) => Some(|HEADER| + n)
  }

  datatype Cut = Cut(before: string, after: string, atLineStart: bool)

  /** The first header of a text, which starts a line or not. */
  function FindHeader(s: string, atLineStart: bool): (r: Option<Cut>)
    ensures r.Some? ==> |r.value.after| < |s|
  {
    if s == [] then None
    else if atLineStart && HeaderAt(s).Some? then
      var n := HeaderAt(s).value;
      Some(Cut("", s[n..], s[n - 1] == '\n'))
    else
      match FindHeader(s[1..], s[0] == '\n')
      case None => None
      case Some(cut) => Some(cut.(before := [s[0]] + cut.before))
  }

  function Split(s: string, atLineStart: bool): seq<string>
    decreases |s|
  {
    match FindHeader(s, atLineStart)
    case None => [s]
    case Some(cut) => [cut.before] + Split(cut.after, cut.atLineStart)
  }

  function ParseBlock(block: string): Requirement {
    Requirement(Extract(block, "id"), Extract(block, "description"), "", Extract(block, "parent"),
                Extract(block, "origin"), Extract(block, "automation"), Extract(block, "runner"),
                Extract(block, "framework"))
  }

  function ParseBlocks(blocks: seq<string>): seq<Requirement> {
    if blocks == [] then []
    else
      var before, block := ParseBlocks(blocks[..|blocks| - 1]), TrimSpace(blocks[|blocks| - 1]);
      if block == "" || ParseBlock(block).id == "" then before else before + [ParseBlock(block)]
  }

  function Parse(content: string): seq<Requirement> {
    ParseBlocks(Split(content, true))
  }

  method ParseRequirementsToml(content: string) returns (reqs: seq<Requirement>)
    ensures reqs == Parse(content)
  {
    reqs := [];
    var blocks := Split(content, true);
    for i := 0 to |blocks|
      invariant reqs == ParseBlocks(blocks[..i])
    {
      assert blocks[..i + 1][..i] == blocks[..i];
      var block := TrimSpace(blocks[i]);
      if block == "" {
        continue;
      }
      var r := ParseBlock(block);
      if r.id != "" {
        reqs := reqs + [r];
      }
    }
    assert blocks[..|blocks|] == blocks;
  }

  // ----------------------------------------------------------------- writing

  function TomlQuote(printable: char -> bool, s: string): string {
    if '\n' in s || '\r' in s then "\"\"\"" + s + "\"\"\"" else Quote(printable, s)
  }

  datatype Field = Field(key: string, value: string)

  function FixedFields(r: Requirement): seq<Field> {
    [Field("id", r.id), Field("parent", r.parent), Field("description", r.description)]
  }

  function Optional(key: string, value: string): seq<Field> {
    if value != "" then [Field(key, value)] else []
  }

  /** The lines of a block in the order they are written. */
  function Fields(r: Requirement): seq<Field> {
    FixedFields(r) + Optional("origin", r.origin) + Optional("automation", r.automation)
    + Optional("runner", r.runner) + Optional("framework", r.framework)
  }

  function Line(printable: char -> bool, f: Field): string {
    f.key + " = " + TomlQuote(printable, f.value)
  }

  function Lines(printable: char -> bool, fs: seq<Field>): string {
    if fs == [] then "" else Line(printable, fs[0]) + "\n" + Lines(printable, fs[1..])
  }

  function Block(printable: char -> bool, r: Requirement): string {
    HEADER + "\n" + Lines(printable, Fields(r))
  }

  /** strings.Join(blocks, "\n"). */
  function Serialize(printable: char -> bool, reqs: seq<Requirement>): string {
    if reqs == [] then ""
    else if |reqs| == 1 then Block(printable, reqs[0])
    else Block(printable, reqs[0]) + "\n" + Serialize(printable, reqs[1..])
  }

  // ------------------------------------------------------- reading one line

  predicate IsLetter(c: char) {
    'a' <= c <= 'z'
  }

  ghost predicate IsKey(key: string) {
    key != "" && forall i :: 0 <= i < |key| ==> IsLetter(key[i])
  }

  ghost predicate OneLine(s: string) {
    '\n' !in s && '\r' !in s
  }

  ghost predicate GoodField(f: Field) {
    IsKey(f.key) && OneLine(f.value)
  }

  lemma SkipOne(t: string)
    requires t != [] && !IsBlank(t[0])
    ensures SkipBlanks(t) == t && SkipBlanks(" " + t) == t
  {
    assert (" " + t)[1..] == t;
  }

  lemma AfterOwnKey(printable: char -> bool, f: Field, rest: string)
    requires GoodField(f)
    ensures AfterKey(Line(printable, f) + rest, f.key) == Some(Quote(printable, f.value) + rest)
  {
    var q := Quote(printable, f.value);
    assert (q + rest)[0] == '"';
    hide Quote, AfterKey;
    Reassociate(f.key + " = ", q, rest);
    AfterPlainKey(f.key, q + rest);
  }

  lemma AfterPlainKey(key: string, q: string)
    requires q != "" && !IsBlank(q[0])
    ensures AfterKey(key + " = " + q, key) == Some(q)
  {
    var s := key + " = " + q;
    assert s == key + (" " + ("=" + (" " + q)));
    assert s[|key|..] == " " + ("=" + (" " + q));
    SkipOne(q);
    SkipOne("=" + (" " + q));
    assert ("=" + (" " + q))[1..] == " " + q;
  }

  /** A blank follows the key, so a longer or shorter key does not fit. */
  lemma PrefixOfLine(printable: char -> bool, f: Field, key: string, rest: string)
    requires GoodField(f) && IsKey(key) && key <= Line(printable, f) + rest
    ensures key == f.key || (|key| < |f.key| && IsLetter((Line(printable, f) + rest)[|key|]))
  {
    var s := Line(printable, f) + rest;
    assert s[..|f.key|] == f.key && s[|f.key|] == ' ';
    if |key| > |f.key| {
      assert false;
    } else if |key| == |f.key| {
      assert key == s[..|key|];
    } else {
      assert s[|key|] == f.key[|key|];
    }
  }

  lemma AfterOtherKey(printable: char -> bool, f: Field, key: string, rest: string)
    requires GoodField(f) && IsKey(key) && key != f.key
    ensures AfterKey(Line(printable, f) + rest, key) == None
  {
    var s := Line(printable, f) + rest;
    if key <= s {
      PrefixOfLine(printable, f, key, rest);
      assert s[|key|..][0] == s[|key|];
    }
  }

  lemma ValueOfQuoted(printable: char -> bool, v: string, rest: string)
    requires rest == "" || rest[0] == '\n'
    ensures ValueAt(Quote(printable, v) + rest, Double) == Some(QuoteBody(printable, v))
    ensures ValueAt(Quote(printable, v) + rest, MultiDouble) == None
    ensures ValueAt(Quote(printable, v) + rest, MultiSingle) == None
  {
    hide ScanDouble, UpTo, QuoteBody;
    var t := Quote(printable, v) + rest;
    assert t[1..] == QuoteBody(printable, v) + ("\"" + rest);
    ScanQuoted(printable, v, rest);
    QuoteBodyHead(printable, v);
    if QuoteBody(printable, v) == [] {
      assert t == "\"\"" + rest;
    } else {
      assert t[1] == QuoteBody(printable, v)[0];
    }
    NotTriple(t);
  }

  lemma NotTriple(t: string)
    requires t != "" && t[0] == '"' && (|t| < 3 || t[1] != '"' || t[2] != '"')
    ensures ValueAt(t, MultiDouble) == None && ValueAt(t, MultiSingle) == None
  {
    assert "\"\"\""[1] == '"' && "\"\"\""[2] == '"' && "'''"[0] == '\'';
  }

  /** What a line says about a key, in the three forms that are tried first. */
  lemma MatchLine(printable: char -> bool, f: Field, key: string, rest: string, form: Form)
    requires GoodField(f) && IsKey(key) && !form.Single?
    requires rest == "" || rest[0] == '\n'
    ensures MatchAt(Line(printable, f) + rest, key, form)
         == if key == f.key && form.Double? then Some(QuoteBody(printable, f.value)) else None
  {
    if key == f.key {
      AfterOwnKey(printable, f, rest);
      ValueOfQuoted(printable, f.value, rest);
    } else {
      AfterOtherKey(printable, f, key, rest);
    }
  }

  lemma SingleNever(printable: char -> bool, f: Field, key: string, rest: string)
    requires GoodField(f) && IsKey(key)
    ensures MatchAt(Line(printable, f) + rest, key, Single) == None
  {
    if key == f.key {
      AfterOwnKey(printable, f, rest);
    } else {
      AfterOtherKey(printable, f, key, rest);
    }
  }

  lemma LineHasNoBreak(printable: char -> bool, f: Field)
    requires GoodField(f)
    ensures '\n' !in Line(printable, f)
  {
    QuoteBodyNoBreak(printable, f.value);
    assert forall i :: 0 <= i < |f.key| ==> f.key[i] != '\n';
  }

  // ------------------------------------------------------ reading one block

  /** A block without its last line break, as trimming leaves it. */
  function Body(printable: char -> bool, fs: seq<Field>): string
    requires fs != []
  {
    if |fs| == 1 then Line(printable, fs[0]) else Line(printable, fs[0]) + "\n" + Body(printable, fs[1..])
  }

  ghost predicate GoodFields(fs: seq<Field>) {
    forall i :: 0 <= i < |fs| ==> GoodField(fs[i])
  }

  /** The first field with the key. */
  function Find(fs: seq<Field>, key: string): Option<string> {
    if fs == [] then None else if fs[0].key == key then Some(fs[0].value) else Find(fs[1..], key)
  }

  function Rest(printable: char -> bool, fs: seq<Field>): string
    requires fs != []
  {
    if |fs| == 1 then "" else "\n" + Body(printable, fs[1..])
  }

  lemma BodySplits(printable: char -> bool, fs: seq<Field>)
    requires fs != []
    ensures Body(printable, fs) == Line(printable, fs[0]) + Rest(printable, fs)
  {
    if |fs| > 1 {
      Reassociate(Line(printable, fs[0]), "\n", Body(printable, fs[1..]));
    }
  }

  lemma BodyNextLine(printable: char -> bool, fs: seq<Field>)
    requires fs != [] && GoodFields(fs)
    ensures NextLine(Body(printable, fs)) == if |fs| == 1 then None else Some(Body(printable, fs[1..]))
  {
    LineHasNoBreak(printable, fs[0]);
    NextLineAt(Line(printable, fs[0]), if |fs| > 1 then Body(printable, fs[1..]) else "");
  }

  lemma {:induction false} FirstMatchInBody(printable: char -> bool, fs: seq<Field>, key: string, form: Form)
    requires fs != [] && GoodFields(fs) && IsKey(key)
    ensures FirstMatch(Body(printable, fs), key, form)
         == if form.Double? && Find(fs, key).Some? then Some(QuoteBody(printable, Find(fs, key).value)) else None
  {
    BodySplits(printable, fs);
    BodyNextLine(printable, fs);
    if form.Single? {
      SingleNever(printable, fs[0], key, Rest(printable, fs));
    } else {
      MatchLine(printable, fs[0], key, Rest(printable, fs), form);
    }
    if |fs| > 1 {
      FirstMatchInBody(printable, fs[1..], key, form);
    }
  }

  /** First-match extraction never picks up text inside another field. */
  lemma ExtractFromBody(printable: char -> bool, fs: seq<Field>, key: string)
    requires fs != [] && GoodFields(fs) && IsKey(key)
    ensures Extract(Body(printable, fs), key) == if Find(fs, key).Some? then Expand(printable, Find(fs, key).value) else ""
  {
    FirstMatchInBody(printable, fs, key, MultiDouble);
    FirstMatchInBody(printable, fs, key, MultiSingle);
    FirstMatchInBody(printable, fs, key, Double);
    FirstMatchInBody(printable, fs, key, Single);
    if Find(fs, key).Some? {
      UnescapeQuoted(printable, Find(fs, key).value);
    }
  }

  ghost predicate Writable(r: Requirement) {
    && OneLine(r.id) && OneLine(r.parent) && OneLine(r.description)
    && OneLine(r.origin) && OneLine(r.automation) && OneLine(r.runner) && OneLine(r.framework)
  }

  /** What is read back: the status is gone, what is not printable is spelled out. */
  function Expanded(printable: char -> bool, r: Requirement): Requirement {
    Requirement(Expand(printable, r.id), Expand(printable, r.description), "", Expand(printable, r.parent),
                Expand(printable, r.origin), Expand(printable, r.automation), Expand(printable, r.runner),
                Expand(printable, r.framework))
  }

  lemma FieldsGood(r: Requirement)
    requires Writable(r)
    ensures Fields(r) != [] && GoodFields(Fields(r))
  {
    assert IsKey("id") && IsKey("parent") && IsKey("description") && IsKey("origin");
    assert IsKey("automation") && IsKey("runner") && IsKey("framework");
  }

  lemma {:induction false} FindJoin(a: seq<Field>, b: seq<Field>, key: string)
    ensures Find(a + b, key) == if Find(a, key).Some? then Find(a, key) else Find(b, key)
  {
    if a == [] {
      assert a + b == b;
    } else {
      assert (a + b)[1..] == a[1..] + b;
      FindJoin(a[1..], b, key);
    }
  }

  lemma FindField(r: Requirement, key: string)
    ensures Find(Fields(r), key)
         == if key == "id" then Some(r.id)
            else if key == "parent" then Some(r.parent)
            else if key == "description" then Some(r.description)
            else if key == "origin" && r.origin != "" then Some(r.origin)
            else if key == "automation" && r.automation != "" then Some(r.automation)
            else if key == "runner" && r.runner != "" then Some(r.runner)
            else if key == "framework" && r.framework != "" then Some(r.framework)
            else None
  {
    var a := FixedFields(r);
    var b, c := Optional("origin", r.origin), Optional("automation", r.automation);
    var d, e := Optional("runner", r.runner), Optional("framework", r.framework);
    assert Fields(r) == a + b + c + d + e;
    FindJoin(a, b, key);
    FindJoin(a + b, c, key);
    FindJoin(a + b + c, d, key);
    FindJoin(a + b + c + d, e, key);
    FindFixed(r, key);
  }

  lemma FindFixed(r: Requirement, key: string)
    ensures Find(FixedFields(r), key)
         == if key == "id" then Some(r.id)
            else if key == "parent" then Some(r.parent)
            else if key == "description" then Some(r.description)
            else None
  {
    FindJoin([Field("id", r.id)], [Field("parent", r.parent)], key);
    FindJoin([Field("id", r.id)] + [Field("parent", r.parent)], [Field("description", r.description)], key);
    assert [Field("id", r.id)] + [Field("parent", r.parent)] + [Field("description", r.description)]
        == [Field("id", r.id), Field("parent", r.parent), Field("description", r.description)];
    FindOne(Field("id", r.id), key);
    FindOne(Field("parent", r.parent), key);
    FindOne(Field("description", r.description), key);
  }

  lemma FindOne(f: Field, key: string)
    ensures Find([f], key) == if key == f.key then Some(f.value) else None
  {
    assert [f][1..] == [];
  }

  lemma ExtractField(printable: char -> bool, r: Requirement, key: string, value: string)
    requires Writable(r) && IsKey(key)
    requires Find(Fields(r), key) == Some(value) || (Find(Fields(r), key) == None && value == "")
    ensures Extract(Body(printable, Fields(r)), key) == Expand(printable, value)
  {
    FieldsGood(r);
    ExtractFromBody(printable, Fields(r), key);
  }

  lemma ParseBody(printable: char -> bool, r: Requirement)
    requires Writable(r)
    ensures ParseBlock(Body(printable, Fields(r))) == Expanded(printable, r)
  {
    assert IsKey("id") && IsKey("parent") && IsKey("description") && IsKey("origin");
    assert IsKey("automation") && IsKey("runner") && IsKey("framework");
    hide Extract, Find, Fields, Body, Writable, IsKey, Expand;
    FindField(r, "id");
    ExtractField(printable, r, "id", r.id);
    FindField(r, "parent");
    ExtractField(printable, r, "parent", r.parent);
    FindField(r, "description");
    ExtractField(printable, r, "description", r.description);
    FindField(r, "origin");
    ExtractField(printable, r, "origin", r.origin);
    FindField(r, "automation");
    ExtractField(printable, r, "automation", r.automation);
    FindField(r, "runner");
    ExtractField(printable, r, "runner", r.runner);
    FindField(r, "framework");
    ExtractField(printable, r, "framework", r.framework);
  }

  // ------------------------------------------------------ cutting into blocks

  function Prefixed(x: string, found: Option<Cut>): Option<Cut> {
    match found
    case None => None
    case Some(cut) => Some(cut.(before := x + cut.before))
  }

  lemma StepOver(c: char, s: string, atLineStart: bool)
    requires c != '[' || !atLineStart
    ensures FindHeader([c] + s, atLineStart) == Prefixed([c], FindHeader(s, c == '\n'))
  {
    assert ([c] + s)[1..] == s;
    assert HEADER[0] == '[';
  }

  /** A header is never found in a line that does not start with a bracket. */
  lemma {:induction false} SkipLine(line: string, rest: string, atLineStart: bool)
    requires '\n' !in line
    requires line == "" || line[0] != '[' || !atLineStart
    ensures FindHeader(line + "\n" + rest, atLineStart) == Prefixed(line + "\n", FindHeader(rest, true))
  {
    if line == "" {
      assert line + "\n" + rest == ['\n'] + rest && line + "\n" == ['\n'];
      StepOver('\n', rest, atLineStart);
    } else {
      assert line + "\n" + rest == [line[0]] + (line[1..] + "\n" + rest);
      StepOver(line[0], line[1..] + "\n" + rest, atLineStart);
      SkipLine(line[1..], rest, false);
      Longer(line, FindHeader(rest, true));
    }
  }

  lemma Longer(line: string, found: Option<Cut>)
    requires line != ""
    ensures Prefixed([line[0]], Prefixed(line[1..] + "\n", found)) == Prefixed(line + "\n", found)
  {
    if found.Some? {
      var b := found.value.before;
      assert [line[0]] + line[1..] == line;
      Reassociate([line[0]], line[1..] + "\n", b);
      Reassociate([line[0]], line[1..], "\n");
    }
  }

  lemma {:induction false} SkipLines(printable: char -> bool, fs: seq<Field>, rest: string)
    requires GoodFields(fs)
    ensures FindHeader(Lines(printable, fs) + rest, true) == Prefixed(Lines(printable, fs), FindHeader(rest, true))
  {
    if fs == [] {
      assert Lines(printable, fs) + rest == rest;
      if FindHeader(rest, true).Some? {
        assert "" + FindHeader(rest, true).value.before == FindHeader(rest, true).value.before;
      }
    } else {
      var line, more := Line(printable, fs[0]), Lines(printable, fs[1..]);
      LineHasNoBreak(printable, fs[0]);
      assert line[0] == fs[0].key[0];
      assert line + "\n" + more + rest == line + "\n" + (more + rest);
      SkipLine(line, more + rest, true);
      SkipLines(printable, fs[1..], rest);
      if FindHeader(rest, true).Some? {
        Reassociate(line + "\n", more, FindHeader(rest, true).value.before);
      }
    }
  }

  /** The text between the header of the first block and the next header, and what follows it. */
  function Piece(printable: char -> bool, r: Requirement, last: bool): string {
    "\n" + (Lines(printable, Fields(r)) + if last then "" else "\n")
  }

  function After(printable: char -> bool, reqs: seq<Requirement>): string
    requires reqs != []
  {
    "\n" + (Lines(printable, Fields(reqs[0])) + if |reqs| == 1 then "" else "\n" + Serialize(printable, reqs[1..]))
  }

  lemma SerializeStarts(printable: char -> bool, reqs: seq<Requirement>)
    requires reqs != []
    ensures Serialize(printable, reqs) == HEADER + After(printable, reqs)
  {
    var lines := Lines(printable, Fields(reqs[0]));
    Reassociate(HEADER, "\n", lines);
    if |reqs| > 1 {
      Around(HEADER, "\n", lines, Serialize(printable, reqs[1..]));
    } else {
      assert lines + "" == lines;
    }
  }

  lemma Around(a: string, b: string, c: string, d: string)
    ensures a + b + c + "\n" + d == a + (b + (c + ("\n" + d)))
  {
  }

  lemma FieldLinesStart(printable: char -> bool, r: Requirement)
    ensures Lines(printable, Fields(r)) != "" && Lines(printable, Fields(r))[0] == 'i'
  {
    var fs := Fields(r);
    assert fs[0].key == "id";
    assert Line(printable, fs[0])[0] == 'i';
  }

  /** The line break after a header is not part of the match, because no blank line follows it. */
  lemma FindFirst(printable: char -> bool, reqs: seq<Requirement>)
    requires reqs != []
    ensures FindHeader(Serialize(printable, reqs), true) == Some(Cut("", After(printable, reqs), false))
  {
    SerializeStarts(printable, reqs);
    FieldLinesStart(printable, reqs[0]);
    HeaderBeforeLine(After(printable, reqs));
  }

  lemma HeaderBeforeLine(rest: string)
    requires |rest| >= 2 && rest[0] == '\n' && rest[1] == 'i'
    ensures FindHeader(HEADER + rest, true) == Some(Cut("", rest, false))
  {
    var s := HEADER + rest;
    assert s[|HEADER|..] == rest;
    assert BlankRun(rest[1..]) == 0;
    assert LongestEnd(rest, 1) == LongestEnd(rest, 0);
    assert s[|HEADER| - 1] == ']';
  }

  function Pieces(printable: char -> bool, reqs: seq<Requirement>): seq<string> {
    if reqs == [] then [] else [Piece(printable, reqs[0], |reqs| == 1)] + Pieces(printable, reqs[1..])
  }

  ghost predicate AllWritable(reqs: seq<Requirement>) {
    forall i :: 0 <= i < |reqs| ==> Writable(reqs[i])
  }

  lemma Break(x: string)
    ensures "\n" + x == "" + "\n" + x
  {
  }

  lemma FindNext(printable: char -> bool, reqs: seq<Requirement>)
    requires reqs != [] && AllWritable(reqs)
    ensures FindHeader(After(printable, reqs), false)
         == if |reqs| == 1 then None else Some(Cut(Piece(printable, reqs[0], false), After(printable, reqs[1..]), false))
  {
    hide FindHeader, Lines, Fields, Writable, GoodField;
    var fs := Fields(reqs[0]);
    var tail := if |reqs| == 1 then "" else "\n" + Serialize(printable, reqs[1..]);
    FieldsGood(reqs[0]);
    Break(Lines(printable, fs) + tail);
    SkipLine("", Lines(printable, fs) + tail, false);
    SkipLines(printable, fs, tail);
    if |reqs| > 1 {
      Break(Serialize(printable, reqs[1..]));
      SkipLine("", Serialize(printable, reqs[1..]), true);
      FindFirst(printable, reqs[1..]);
      PieceOf(Lines(printable, fs));
    } else {
      NoHeader();
    }
  }

  lemma PieceOf(lines: string)
    ensures ("" + "\n") + (lines + (("" + "\n") + "")) == "\n" + (lines + "\n")
  {
  }

  lemma NoHeader()
    ensures FindHeader("", true) == None
  {
  }

  lemma {:induction false} SplitAfter(printable: char -> bool, reqs: seq<Requirement>)
    requires reqs != [] && AllWritable(reqs)
    ensures Split(After(printable, reqs), false) == Pieces(printable, reqs)
    decreases |reqs|
  {
    FindNext(printable, reqs);
    if |reqs| == 1 {
      assert Pieces(printable, reqs[1..]) == [];
    } else {
      SplitAfter(printable, reqs[1..]);
    }
  }

  lemma {:induction false} BodyThenBreak(printable: char -> bool, fs: seq<Field>)
    requires fs != [] && GoodFields(fs)
    ensures Lines(printable, fs) == Body(printable, fs) + "\n"
    ensures var body := Body(printable, fs); body != "" && IsLetter(body[0]) && body[|body| - 1] == '"'
  {
    var line := Line(printable, fs[0]);
    assert line[0] == fs[0].key[0] && line[|line| - 1] == '"';
    if |fs| == 1 {
      assert Lines(printable, fs[1..]) == "";
    } else {
      BodyThenBreak(printable, fs[1..]);
      Reassociate(line + "\n", Body(printable, fs[1..]), "\n");
    }
  }

  lemma AroundBody(body: string)
    ensures "\n" + (body + "\n" + "") == "\n" + body + "\n"
    ensures "\n" + (body + "\n" + "\n") == "\n" + body + "\n\n"
  {
  }

  lemma TrimPiece(printable: char -> bool, r: Requirement, last: bool)
    requires Writable(r)
    ensures TrimSpace(Piece(printable, r, last)) == Body(printable, Fields(r)) && Body(printable, Fields(r)) != ""
  {
    hide TrimSpace, Body, Lines, Fields;
    FieldsGood(r);
    BodyThenBreak(printable, Fields(r));
    var body := Body(printable, Fields(r));
    var after := if last then "\n" else "\n\n";
    AroundBody(body);
    TrimExact("\n", body, after);
  }

  lemma {:induction false} ParseBlocksJoin(a: seq<string>, b: seq<string>)
    ensures ParseBlocks(a + b) == ParseBlocks(a) + ParseBlocks(b)
  {
    if b == [] {
      assert a + b == a;
    } else {
      assert (a + b)[..|a + b| - 1] == a + b[..|b| - 1];
      ParseBlocksJoin(a, b[..|b| - 1]);
    }
  }

  /** What a list of requirements reads back as: those without an id are gone. */
  function ReadBack(printable: char -> bool, reqs: seq<Requirement>): seq<Requirement> {
    if reqs == [] then []
    else (if reqs[0].id == "" then [] else [Expanded(printable, reqs[0])]) + ReadBack(printable, reqs[1..])
  }

  lemma ParsePiece(printable: char -> bool, r: Requirement, last: bool)
    requires Writable(r)
    ensures ParseBlocks([Piece(printable, r, last)]) == if r.id == "" then [] else [Expanded(printable, r)]
  {
    TrimPiece(printable, r, last);
    ParseBody(printable, r);
    ExpandLength(printable, r.id);
    assert [Piece(printable, r, last)][..0] == [];
  }

  lemma {:induction false} ParsePieces(printable: char -> bool, reqs: seq<Requirement>)
    requires AllWritable(reqs)
    ensures ParseBlocks(Pieces(printable, reqs)) == ReadBack(printable, reqs)
  {
    if reqs != [] {
      ParsePiece(printable, reqs[0], |reqs| == 1);
      ParsePieces(printable, reqs[1..]);
      ParseBlocksJoin([Piece(printable, reqs[0], |reqs| == 1)], Pieces(printable, reqs[1..]));
    }
  }

  lemma EmptyPiece()
    ensures ParseBlocks([""]) == []
  {
    assert [""][..0] == [];
  }

  /** Reading what was written, for every list of requirements whose values have one line each. */
  lemma SerializeThenParse(printable: char -> bool, reqs: seq<Requirement>)
    requires AllWritable(reqs)
    ensures Parse(Serialize(printable, reqs)) == ReadBack(printable, reqs)
  {
    EmptyPiece();
    if reqs != [] {
      FindFirst(printable, reqs);
      SplitAfter(printable, reqs);
      ParsePieces(printable, reqs);
      ParseBlocksJoin([""], Pieces(printable, reqs));
    }
  }

  ghost predicate Printable(printable: char -> bool, r: Requirement) {
    && Clean(printable, r.id) && Clean(printable, r.parent) && Clean(printable, r.description)
    && Clean(printable, r.origin) && Clean(printable, r.automation) && Clean(printable, r.runner)
    && Clean(printable, r.framework)
  }

  function WithoutStatus(reqs: seq<Requirement>): seq<Requirement> {
    seq(|reqs|, i requires 0 <= i < |reqs| => reqs[i].(status := ""))
  }

  lemma ExpandedSame(printable: char -> bool, r: Requirement)
    ensures Expanded(printable, r) == r.(status := "") <==> Printable(printable, r)
  {
    ExpandLength(printable, r.id);
    ExpandLength(printable, r.parent);
    ExpandLength(printable, r.description);
    ExpandLength(printable, r.origin);
    ExpandLength(printable, r.automation);
    ExpandLength(printable, r.runner);
    ExpandLength(printable, r.framework);
  }

  ghost predicate Kept(printable: char -> bool, r: Requirement) {
    r.id != "" && Printable(printable, r)
  }

  lemma {:induction false} ReadBackSame(printable: char -> bool, reqs: seq<Requirement>)
    ensures |ReadBack(printable, reqs)| <= |reqs|
    ensures ReadBack(printable, reqs) == WithoutStatus(reqs) <==> forall i :: 0 <= i < |reqs| ==> Kept(printable, reqs[i])
  {
    if reqs != [] {
      var rest := reqs[1..];
      ReadBackSame(printable, rest);
      ExpandedSame(printable, reqs[0]);
      assert WithoutStatus(reqs) == [reqs[0].(status := "")] + WithoutStatus(rest);
      assert reqs == [reqs[0]] + rest;
      assert (forall i :: 0 <= i < |reqs| ==> Kept(printable, reqs[i]))
        <==> Kept(printable, reqs[0]) && forall i :: 0 <= i < |rest| ==> Kept(printable, rest[i]);
      if reqs[0].id != "" {
        var back := ReadBack(printable, reqs);
        assert back[0] == Expanded(printable, reqs[0]) && back[1..] == ReadBack(printable, rest);
        assert WithoutStatus(reqs)[0] == reqs[0].(status := "") && WithoutStatus(reqs)[1..] == WithoutStatus(rest);
      }
    }
  }

  /** Writing and reading give the same list, less the statuses, exactly when every id is there and all values are
      printable. */
  lemma RoundTrip(printable: char -> bool, reqs: seq<Requirement>)
    requires AllWritable(reqs)
    ensures Parse(Serialize(printable, reqs)) == WithoutStatus(reqs)
       <==> forall i :: 0 <= i < |reqs| ==> Kept(printable, reqs[i])
  {
    SerializeThenParse(printable, reqs);
    ReadBackSame(printable, reqs);
  }

  // --------------------------------------------------------------- the writer

  function Join(blocks: seq<string>, separator: string): string {
    if blocks == [] then ""
    else if |blocks| == 1 then blocks[0]
    else blocks[0] + separator + Join(blocks[1..], separator)
  }

  function Blocks(printable: char -> bool, reqs: seq<Requirement>): seq<string> {
    seq(|reqs|, i requires 0 <= i < |reqs| => Block(printable, reqs[i]))
  }

  lemma {:induction false} JoinBlocks(printable: char -> bool, reqs: seq<Requirement>)
    ensures Join(Blocks(printable, reqs), "\n") == Serialize(printable, reqs)
  {
    hide Block;
    if |reqs| > 1 {
      assert Blocks(printable, reqs)[0] == Block(printable, reqs[0]);
      assert Blocks(printable, reqs)[1..] == Blocks(printable, reqs[1..]);
      JoinBlocks(printable, reqs[1..]);
    }
  }

  lemma {:induction false} LinesJoin(printable: char -> bool, a: seq<Field>, b: seq<Field>)
    ensures Lines(printable, a + b) == Lines(printable, a) + Lines(printable, b)
  {
    if a == [] {
      assert a + b == b;
    } else {
      assert (a + b)[1..] == a[1..] + b;
      LinesJoin(printable, a[1..], b);
      Reassociate(Line(printable, a[0]) + "\n", Lines(printable, a[1..]), Lines(printable, b));
    }
  }

  lemma LinesOne(printable: char -> bool, f: Field)
    ensures Lines(printable, [f]) == Line(printable, f) + "\n"
  {
    assert [f][1..] == [];
  }

  /** Adds one line for a value that is set. */
  method WriteOptional(printable: char -> bool, b: string, key: string, value: string, ghost before: seq<Field>)
      returns (r: string)
    requires b == HEADER + "\n" + Lines(printable, before)
    ensures r == HEADER + "\n" + Lines(printable, before + Optional(key, value))
  {
    LinesJoin(printable, before, Optional(key, value));
    LinesOne(printable, Field(key, value));
    r := b;
    if value != "" {
      r := r + (key + " = " + TomlQuote(printable, value) + "\n");
      Reassociate(HEADER + "\n", Lines(printable, before), Line(printable, Field(key, value)) + "\n");
    }
  }

  method WriteFixed(printable: char -> bool, r: Requirement) returns (b: string)
    ensures b == HEADER + "\n" + Lines(printable, FixedFields(r))
  {
    b := HEADER + "\n";
    b := b + ("id = " + TomlQuote(printable, r.id) + "\n");
    b := b + ("parent = " + TomlQuote(printable, r.parent) + "\n");
    b := b + ("description = " + TomlQuote(printable, r.description) + "\n");
    FixedLines(printable, r);
  }

  lemma FixedLines(printable: char -> bool, r: Requirement)
    ensures HEADER + "\n" + Lines(printable, FixedFields(r))
         == HEADER + "\n" + ("id = " + TomlQuote(printable, r.id) + "\n") + ("parent = " + TomlQuote(printable, r.parent) + "\n")
            + ("description = " + TomlQuote(printable, r.description) + "\n")
  {
    var a, b, c := Field("id", r.id), Field("parent", r.parent), Field("description", r.description);
    FieldLine(printable, "id", r.id);
    FieldLine(printable, "parent", r.parent);
    FieldLine(printable, "description", r.description);
    assert FixedFields(r) == [a] + [b] + [c];
    LinesJoin(printable, [a] + [b], [c]);
    LinesJoin(printable, [a], [b]);
    Reassociate(HEADER + "\n", Lines(printable, [a]), Lines(printable, [b]));
    Reassociate(HEADER + "\n", Lines(printable, [a]) + Lines(printable, [b]), Lines(printable, [c]));
  }

  lemma FieldLine(printable: char -> bool, key: string, value: string)
    ensures Lines(printable, [Field(key, value)]) == key + " = " + TomlQuote(printable, value) + "\n"
    ensures key == "id" ==> Lines(printable, [Field(key, value)]) == "id = " + TomlQuote(printable, value) + "\n"
    ensures key == "parent" ==> Lines(printable, [Field(key, value)]) == "parent = " + TomlQuote(printable, value) + "\n"
    ensures key == "description" ==> Lines(printable, [Field(key, value)]) == "description = " + TomlQuote(printable, value) + "\n"
  {
    LinesOne(printable, Field(key, value));
    assert "id" + " = " == "id = ";
    assert "parent" + " = " == "parent = ";
    assert "description" + " = " == "description = ";
  }

  method WriteBlock(printable: char -> bool, r: Requirement) returns (b: string)
    ensures b == Block(printable, r)
  {
    b := WriteFixed(printable, r);
    ghost var fields := FixedFields(r);
    b := WriteOptional(printable, b, "origin", r.origin, fields);
    fields := fields + Optional("origin", r.origin);
    b := WriteOptional(printable, b, "automation", r.automation, fields);
    fields := fields + Optional("automation", r.automation);
    b := WriteOptional(printable, b, "runner", r.runner, fields);
    fields := fields + Optional("runner", r.runner);
    b := WriteOptional(printable, b, "framework", r.framework, fields);
  }

  method SerializeRequirementsToml(printable: char -> bool, reqs: seq<Requirement>) returns (s: string)
    ensures s == Serialize(printable, reqs)
  {
    hide Block, Join, Serialize;
    var blocks: seq<string> := [];
    for i := 0 to |reqs|
      invariant blocks == Blocks(printable, reqs[..i])
    {
      var b := WriteBlock(printable, reqs[i]);
      blocks := blocks + [b];
    }
    assert reqs[..|reqs|] == reqs;
    JoinBlocks(printable, reqs);
    s := Join(blocks, "\n");
  }
}
