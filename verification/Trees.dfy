/**
 The tree object format of the deploy checksum. The hash function is a
 parameter of which only the 20-byte digest length is known.
 */
module Trees {
  import opened Bytes
  import opened Sorting

  const SLASH: byte := 47
  const SPACE: byte := 32
  const NUL: byte := 0

  predicate GoodName(name: bytes) {
    name != [] && NUL !in name && SLASH !in name
  }

  /** The tree a checksum is about: names, kinds, executable bit, contents and link targets. */
  datatype Tree =
    | Blob(exec: bool, content: bytes)
    | Symlink(target: bytes)
    | Dir(entries: map<bytes, Tree>)

  ghost predicate Good(t: Tree) {
    t.Dir? ==> forall name :: name in t.entries ==> GoodName(name) && Good(t.entries[name])
  }

  ghost predicate Digest(H: bytes -> bytes) {
    forall x :: |H(x)| == 20
  }

  // ---------------------------------------------------------------- format

  datatype Mode = Regular | Executable | LinkMode | DirMode

  function ModeOf(t: Tree): Mode {
    match t
    case Blob(exec, _) => if exec then Executable else Regular
    case Symlink(_) => LinkMode
    case Dir(_) => DirMode
  }

  function Digits(m: Mode): (b: bytes)
    ensures |b| == 6 && NUL !in b
  {
    match m
    case Regular => [49, 48, 48, 54, 52, 52]     // 100644
    case Executable => [49, 48, 48, 55, 53, 53]  // 100755
    case LinkMode => [49, 50, 48, 48, 48, 48]    // 120000
    case DirMode => [48, 52, 48, 48, 48, 48]     // 040000
  }

  function Decimal(n: nat): (b: bytes)
    ensures b != [] && NUL !in b
  {
    if n < 10 then [(48 + n) as byte] else Decimal(n / 10) + [(48 + n % 10) as byte]
  }

  const BLOB: bytes := [98, 108, 111, 98, 32]  // "blob "
  const TREE: bytes := [116, 114, 101, 101, 32]  // "tree "

  function Framed(kind: bytes, content: bytes): bytes {
    kind + Decimal(|content|) + [NUL] + content
  }

  datatype Record = Record(mode: Mode, name: bytes, hash: bytes) {
    function Encode(): bytes {
      Digits(mode) + [SPACE] + name + [NUL] + hash
    }

    /** Git compares a directory's name as if it ended in a slash. */
    function SortKey(): bytes {
      if mode.DirMode? then name + [SLASH] else name
    }

    predicate Valid() { GoodName(name) && |hash| == 20 }
  }

  function EncodeAll(rs: seq<Record>): bytes {
    if rs == [] then [] else rs[0].Encode() + EncodeAll(rs[1..])
  }

  ghost predicate AllValid(rs: seq<Record>) {
    forall i :: 0 <= i < |rs| ==> rs[i].Valid()
  }

  // ------------------------------------------------------- unique decoding

  /** What comes before the first NUL, and after it, can be read back. */
  lemma {:induction false} SplitAtNul(a: bytes, c: bytes, b: bytes, d: bytes)
    requires NUL !in a && NUL !in b
    requires a + [NUL] + c == b + [NUL] + d
    ensures a == b && c == d
  {
    var x := a + [NUL] + c;
    assert forall i :: 0 <= i < |a| ==> x[i] != NUL by { assert forall i :: 0 <= i < |a| ==> x[i] == a[i]; }
    assert forall i :: 0 <= i < |b| ==> x[i] != NUL by { assert forall i :: 0 <= i < |b| ==> x[i] == b[i]; }
    assert x[|a|] == NUL && x[|b|] == NUL;
    assert a == x[..|a|] && b == x[..|b|];
    assert c == x[|a| + 1..] && d == x[|b| + 1..];
  }

  lemma FramedInjective(kind: bytes, c: bytes, d: bytes)
    requires NUL !in kind && Framed(kind, c) == Framed(kind, d)
    ensures c == d
  {
    SplitAtNul(kind + Decimal(|c|), c, kind + Decimal(|d|), d);
  }

  lemma RecordDecodes(r: Record, x: bytes, s: Record, y: bytes)
    requires r.Valid() && s.Valid()
    requires r.Encode() + x == s.Encode() + y
    ensures r == s && x == y
  {
    var a, b := Digits(r.mode) + [SPACE] + r.name, Digits(s.mode) + [SPACE] + s.name;
    assert r.Encode() + x == a + [NUL] + (r.hash + x);
    assert s.Encode() + y == b + [NUL] + (s.hash + y);
    SplitAtNul(a, r.hash + x, b, s.hash + y);
    assert r.hash == (r.hash + x)[..20] && s.hash == (s.hash + y)[..20];
    assert x == (r.hash + x)[20..] && y == (s.hash + y)[20..];
    assert Digits(r.mode) == a[..6] && Digits(s.mode) == b[..6];
    assert r.name == a[7..] && s.name == b[7..];
    DigitsInjective(r.mode, s.mode);
  }

  lemma DigitsInjective(m: Mode, n: Mode)
    requires Digits(m) == Digits(n)
    ensures m == n
  {
    assert Digits(m)[1] == Digits(n)[1] && Digits(m)[3] == Digits(n)[3];
  }

  /** The concatenation of records can be cut into records in one way only. */
  lemma {:induction false} UniquelyDecodable(rs: seq<Record>, ss: seq<Record>)
    requires AllValid(rs) && AllValid(ss)
    requires EncodeAll(rs) == EncodeAll(ss)
    ensures rs == ss
  {
    if rs == [] || ss == [] {
      assert rs != [] ==> |EncodeAll(rs)| > 0;
      assert ss != [] ==> |EncodeAll(ss)| > 0;
    } else {
      RecordDecodes(rs[0], EncodeAll(rs[1..]), ss[0], EncodeAll(ss[1..]));
      UniquelyDecodable(rs[1..], ss[1..]);
      assert rs == [rs[0]] + rs[1..] && ss == [ss[0]] + ss[1..];
    }
  }

  // --------------------------------------------------------------- sorting

  function KeyOf(r: Record): bytes {
    r.SortKey()
  }

  lemma KeysTellNames(r: Record, s: Record)
    requires r.Valid() && s.Valid() && r.SortKey() == s.SortKey()
    ensures r.name == s.name
  {
    KeyEnds(r);
    KeyEnds(s);
    if r.mode.DirMode? {
      assert r.name == r.SortKey()[..|r.SortKey()| - 1] && s.name == s.SortKey()[..|s.SortKey()| - 1];
    }
  }

  lemma KeyEnds(r: Record)
    requires r.Valid()
    ensures r.SortKey() != [] && (r.SortKey()[|r.SortKey()| - 1] == SLASH <==> r.mode.DirMode?)
  {
    assert r.name[|r.name| - 1] in r.name;
  }

  // -------------------------------------------------------------- the hash

  function BlobHash(H: bytes -> bytes, content: bytes): bytes {
    H(Framed(BLOB, content))
  }

  ghost function RecordOf(H: bytes -> bytes, t: Tree, name: bytes): Record
    requires t.Dir? && name in t.entries && Digest(H) && Good(t)
  {
    Record(ModeOf(t.entries[name]), name, Hash(H, t.entries[name]))
  }

  /** One record per entry: its mode, its name and the hash of what it names. */
  ghost function Records(H: bytes -> bytes, t: Tree): (all: set<Record>)
    requires t.Dir? && Digest(H) && Good(t)
    ensures forall r :: r in all ==> r.name in t.entries && r.Valid()
    ensures DistinctKeys(KeyOf, all)
    decreases t, 0
  {
    var all := set name | name in t.entries :: Record(ModeOf(t.entries[name]), name, Hash(H, t.entries[name]));
    forall r, s | r in all && s in all && r.SortKey() == s.SortKey() ensures r == s { KeysTellNames(r, s); }
    all
  }

  ghost function Hash(H: bytes -> bytes, t: Tree): (h: bytes)
    requires Digest(H) && Good(t)
    ensures |h| == 20
    decreases t, 1
  {
    match t
    case Blob(_, content) => BlobHash(H, content)
    case Symlink(target) => BlobHash(H, target)
    case Dir(_) => H(Framed(TREE, EncodeAll(Sort(KeyOf, Records(H, t)))))
  }

  // ------------------------------------------------------------ main result

  lemma SortValid(H: bytes -> bytes, t: Tree)
    requires t.Dir? && Digest(H) && Good(t)
    ensures AllValid(Sort(KeyOf, Records(H, t)))
  {
    var rs := Sort(KeyOf, Records(H, t));
    forall i | 0 <= i < |rs| ensures rs[i].Valid() { assert rs[i] in rs; }
  }

  lemma FramesCollide(H: bytes -> bytes, kind: bytes, c: bytes, d: bytes) returns (x: bytes, y: bytes)
    requires NUL !in kind && c != d && H(Framed(kind, c)) == H(Framed(kind, d))
    ensures x != y && H(x) == H(y)
  {
    x, y := Framed(kind, c), Framed(kind, d);
    if x == y {
      FramedInjective(kind, c, d);
    }
  }

  /** Two different directories whose records agree have an entry of the same kind and hash but with different content. */
  lemma DifferingEntry(H: bytes -> bytes, t: Tree, u: Tree) returns (name: bytes)
    requires t.Dir? && u.Dir? && Digest(H) && Good(t) && Good(u)
    requires t != u && Records(H, t) == Records(H, u)
    ensures name in t.entries && name in u.entries && t.entries[name] != u.entries[name]
    ensures ModeOf(t.entries[name]) == ModeOf(u.entries[name])
    ensures Hash(H, t.entries[name]) == Hash(H, u.entries[name])
  {
    forall n | n in t.entries ensures n in u.entries {
      assert Record(ModeOf(t.entries[n]), n, Hash(H, t.entries[n])) in Records(H, t);
    }
    forall n | n in u.entries ensures n in t.entries {
      assert Record(ModeOf(u.entries[n]), n, Hash(H, u.entries[n])) in Records(H, u);
    }
    assert t.entries.Keys == u.entries.Keys;
    assert t.entries != u.entries;
    name :| name in t.entries && t.entries[name] != u.entries[name];
    var r := Record(ModeOf(t.entries[name]), name, Hash(H, t.entries[name]));
    assert r in Records(H, t);
    assert r in Records(H, u);
  }

  /**
   Equal checksums mean equal trees, unless the hash function itself gives the
   same digest to two byte strings, which are then exhibited.
   */
  lemma {:induction false} Collision(H: bytes -> bytes, t: Tree, u: Tree) returns (x: bytes, y: bytes)
    requires Digest(H) && Good(t) && Good(u) && ModeOf(t) == ModeOf(u)
    requires t != u && Hash(H, t) == Hash(H, u)
    ensures x != y && H(x) == H(y)
    decreases t
  {
    match t {
      case Blob(exec, content) =>
        x, y := FramesCollide(H, BLOB, content, u.content);
      case Symlink(target) =>
        x, y := FramesCollide(H, BLOB, target, u.target);
      case Dir(entries) =>
        var rs, ss := Sort(KeyOf, Records(H, t)), Sort(KeyOf, Records(H, u));
        SortValid(H, t);
        SortValid(H, u);
        if EncodeAll(rs) != EncodeAll(ss) {
          x, y := FramesCollide(H, TREE, EncodeAll(rs), EncodeAll(ss));
        } else {
          UniquelyDecodable(rs, ss);
          assert forall r :: r in Records(H, t) <==> r in rs;
          assert forall r :: r in Records(H, u) <==> r in rs;
          assert Records(H, t) == Records(H, u);
          var name := DifferingEntry(H, t, u);
          x, y := Collision(H, entries[name], u.entries[name]);
        }
    }
  }

  // ------------------------------------------------------ the bytes hashed

  /** The number that decimal digits spell, the last one counting least. */
  ghost function Value(digits: bytes): int {
    if digits == [] then 0 else 10 * Value(digits[..|digits| - 1]) + (digits[|digits| - 1] as int - 48)
  }

  /** Decimal digits without a leading zero, unless the number is zero. */
  ghost predicate Numeral(digits: bytes, n: nat) {
    && digits != [] && (forall i :: 0 <= i < |digits| ==> 48 <= digits[i] <= 57)
    && Value(digits) == n && (digits[0] == 48 ==> digits == [48])
  }

  lemma {:induction false} DecimalSpells(n: nat)
    ensures Numeral(Decimal(n), n)
    ensures n > 0 ==> Decimal(n)[0] != 48
  {
    if n < 10 {
      assert Decimal(n)[..0] == [];
    } else {
      DecimalSpells(n / 10);
      var d := Decimal(n);
      assert d[..|d| - 1] == Decimal(n / 10);
    }
  }

  /** What is hashed for an object: its kind, its length in decimal, NUL and its content. */
  ghost predicate IsObject(kind: string, content: bytes, hashed: bytes)
    requires IsAscii(kind)
  {
    exists digits :: Numeral(digits, |content|) && hashed == Ascii(kind) + [32] + digits + [0] + content
  }

  lemma FrameIsObject(content: bytes)
    ensures IsObject("blob", content, Framed(BLOB, content))
    ensures IsObject("tree", content, Framed(TREE, content))
  {
    DecimalSpells(|content|);
    assert Ascii("blob") + [32] == BLOB && Ascii("tree") + [32] == TREE;
    assert NUL == 0;
  }

  /** The six digits of a mode. */
  ghost function ModeText(t: Tree): (text: string)
    ensures IsAscii(text)
  {
    match t
    case Blob(exec, _) => if exec then "100755" else "100644"
    case Symlink(_) => "120000"
    case Dir(_) => "040000"
  }

  lemma DigitsSpell(t: Tree)
    ensures Digits(ModeOf(t)) == Ascii(ModeText(t))
  {
  }

  /** The records of a directory, each its mode, a blank, its name, NUL and 20 bytes of hash, in the order of the names
      as git compares them. */
  ghost predicate IsListing(H: bytes -> bytes, t: Tree, names: seq<bytes>, content: bytes)
    requires t.Dir? && Digest(H) && Good(t)
    decreases |names|
  {
    if names == [] then content == []
    else
      && names[0] in t.entries
      && var entry := t.entries[names[0]];
         var record := Ascii(ModeText(entry)) + [32] + names[0] + [0] + Hash(H, entry);
         record <= content && IsListing(H, t, names[1..], content[|record|..])
  }

  /** Every name once, a directory's compared as if it ended in a slash. */
  ghost predicate InGitOrder(t: Tree, names: seq<bytes>)
    requires t.Dir?
  {
    && (forall name :: name in names <==> name in t.entries)
    && forall i, j :: 0 <= i < j < |names| ==> Less(GitName(t, names[i]), GitName(t, names[j]))
  }

  ghost function GitName(t: Tree, name: bytes): bytes
    requires t.Dir?
  {
    if name in t.entries && t.entries[name].Dir? then name + Ascii("/") else name
  }

  /** The names of records. */
  ghost function NamesOf(rs: seq<Record>): (names: seq<bytes>)
    ensures |names| == |rs|
  {
    seq(|rs|, i requires 0 <= i < |rs| => rs[i].name)
  }

  lemma {:induction false} EncodedListing(H: bytes -> bytes, t: Tree, rs: seq<Record>)
    requires t.Dir? && Digest(H) && Good(t)
    requires forall i :: 0 <= i < |rs| ==> rs[i].name in t.entries && rs[i] == RecordOf(H, t, rs[i].name)
    ensures IsListing(H, t, NamesOf(rs), EncodeAll(rs))
    decreases |rs|
  {
    if rs != [] {
      var r, rest, content := rs[0], rs[1..], EncodeAll(rs);
      EncodedListing(H, t, rest);
      assert NamesOf(rs)[1..] == NamesOf(rest);
      DigitsSpell(t.entries[r.name]);
      var record := Ascii(ModeText(t.entries[r.name])) + [32] + r.name + [0] + Hash(H, t.entries[r.name]);
      assert r.Encode() == record;
      assert content[|record|..] == EncodeAll(rest);
    }
  }

  lemma SortedInGitOrder(H: bytes -> bytes, t: Tree)
    requires t.Dir? && Digest(H) && Good(t)
    ensures var rs := Sort(KeyOf, Records(H, t));
            && InGitOrder(t, NamesOf(rs))
            && forall i :: 0 <= i < |rs| ==> rs[i].name in t.entries && rs[i] == RecordOf(H, t, rs[i].name)
  {
    var rs := Sort(KeyOf, Records(H, t));
    var names := NamesOf(rs);
    assert Ascii("/") == [SLASH];
    forall i | 0 <= i < |rs|
      ensures rs[i].name in t.entries && rs[i] == RecordOf(H, t, rs[i].name)
      ensures GitName(t, names[i]) == KeyOf(rs[i])
    {
      assert rs[i] in rs;
    }
    forall name
      ensures name in names <==> name in t.entries
    {
      if name in t.entries {
        assert RecordOf(H, t, name) in Records(H, t);
        var i :| 0 <= i < |rs| && rs[i] == RecordOf(H, t, name);
        assert names[i] == name;
      }
    }
    assert forall i, j :: 0 <= i < j < |rs| ==> Less(KeyOf(rs[i]), KeyOf(rs[j]));
  }

  /** The checksum is the hash of one object in the format of git, down to the byte; directories have the mode 040000. */
  lemma HashedBytes(H: bytes -> bytes, t: Tree) returns (hashed: bytes, names: seq<bytes>, content: bytes)
    requires Digest(H) && Good(t)
    ensures Hash(H, t) == H(hashed)
    ensures t.Blob? ==> IsObject("blob", t.content, hashed)
    ensures t.Symlink? ==> IsObject("blob", t.target, hashed)
    ensures t.Dir? ==> IsObject("tree", content, hashed) && InGitOrder(t, names) && IsListing(H, t, names, content)
  {
    names, content := [], [];
    match t {
      case Blob(_, c) =>
        hashed := Framed(BLOB, c);
        FrameIsObject(c);
      case Symlink(target) =>
        hashed := Framed(BLOB, target);
        FrameIsObject(target);
      case Dir(_) =>
        var rs := Sort(KeyOf, Records(H, t));
        names, content := NamesOf(rs), EncodeAll(rs);
        hashed := Framed(TREE, content);
        FrameIsObject(content);
        SortedInGitOrder(H, t);
        EncodedListing(H, t, rs);
    }
  }
}
