/** The text operations the requirements file is read and written with. */
module Text {
  import opened Options

  /** What \s matches. */
  predicate IsBlank(c: char) {
    c == '\t' || c == '\n' || c as int == 12 || c == '\r' || c == ' '
  }

  /** What strings.TrimSpace removes. */
  predicate IsSpace(c: char) {
    var n := c as int;
    || IsBlank(c) || n == 0x0B || n == 0x85 || n == 0xA0 || n == 0x1680 || 0x2000 <= n <= 0x200A
    || n == 0x2028 || n == 0x2029 || n == 0x202F || n == 0x205F || n == 0x3000
  }

  function SkipBlanks(s: string): string {
    if s != [] && IsBlank(s[0]) then SkipBlanks(s[1..]) else s
  }

  function TrimLeft(s: string): string {
    if s != [] && IsSpace(s[0]) then TrimLeft(s[1..]) else s
  }

  function TrimRight(s: string): string {
    if s != [] && IsSpace(s[|s| - 1]) then TrimRight(s[..|s| - 1]) else s
  }

  function TrimSpace(s: string): string {
    TrimRight(TrimLeft(s))
  }

  /** What follows the first line break. */
  function NextLine(s: string): Option<string> {
    if s == [] then None else if s[0] == '\n' then Some(s[1..]) else NextLine(s[1..])
  }

  /** The text up to the first occurrence of mark. */
  function UpTo(s: string, mark: string): Option<string> {
    if mark <= s then Some("")
    else if s == [] then None
    else
      match UpTo(s[1..], mark)
      case None => None
      case Some(t) => Some([s[0]] + t)
  }

  /** strings.ReplaceAll of the two characters ab by r. */
  function Replace(s: string, a: char, b: char, r: char): string {
    if |s| < 2 then s
    else if s[0] == a && s[1] == b then [r] + Replace(s[2..], a, b, r)
    else [s[0]] + Replace(s[1..], a, b, r)
  }

  lemma Reassociate(a: string, b: string, c: string)
    ensures a + (b + c) == a + b + c
  {
  }

  lemma ReplaceMiss(c: char, s: string, a: char, b: char, r: char)
    requires c != a || s == [] || s[0] != b
    ensures Replace([c] + s, a, b, r) == [c] + Replace(s, a, b, r)
  {
    assert ([c] + s)[1..] == s;
  }

  lemma ReplaceHit(s: string, a: char, b: char, r: char)
    ensures Replace([a, b] + s, a, b, r) == [r] + Replace(s, a, b, r)
  {
    assert ([a, b] + s)[2..] == s;
  }

  lemma {:induction false} ReplaceMisses(x: string, s: string, a: char, b: char, r: char)
    requires forall i :: 0 <= i < |x| ==> x[i] != a
    ensures Replace(x + s, a, b, r) == x + Replace(s, a, b, r)
  {
    if x == [] {
      assert x + s == s;
    } else {
      assert x + s == [x[0]] + (x[1..] + s);
      ReplaceMiss(x[0], x[1..] + s, a, b, r);
      ReplaceMisses(x[1..], s, a, b, r);
      assert [x[0]] + (x[1..] + Replace(s, a, b, r)) == x + Replace(s, a, b, r);
    }
  }

  lemma {:induction false} NextLineAt(line: string, rest: string)
    requires '\n' !in line
    ensures NextLine(line + "\n" + rest) == Some(rest) && NextLine(line) == None
  {
    if line == [] {
      assert line + "\n" + rest == "\n" + rest;
      assert ("\n" + rest)[1..] == rest;
    } else {
      assert (line + "\n" + rest)[1..] == line[1..] + "\n" + rest;
      NextLineAt(line[1..], rest);
    }
  }

  lemma {:induction false} TrimExact(before: string, s: string, after: string)
    requires forall i :: 0 <= i < |before| ==> IsSpace(before[i])
    requires forall i :: 0 <= i < |after| ==> IsSpace(after[i])
    requires s != [] && !IsSpace(s[0]) && !IsSpace(s[|s| - 1])
    ensures TrimSpace(before + s + after) == s
  {
    TrimLeftExact(before, s + after);
    assert before + s + after == before + (s + after);
    TrimRightExact(s, after);
  }

  lemma {:induction false} TrimLeftExact(before: string, s: string)
    requires forall i :: 0 <= i < |before| ==> IsSpace(before[i])
    requires s != [] && !IsSpace(s[0])
    ensures TrimLeft(before + s) == s
  {
    if before == [] {
      assert before + s == s;
    } else {
      assert (before + s)[1..] == before[1..] + s;
      TrimLeftExact(before[1..], s);
    }
  }

  lemma {:induction false} TrimRightExact(s: string, after: string)
    requires forall i :: 0 <= i < |after| ==> IsSpace(after[i])
    requires s != [] && !IsSpace(s[|s| - 1])
    ensures TrimRight(s + after) == s
  {
    if after == [] {
      assert s + after == s;
    } else {
      var t := after[..|after| - 1];
      assert (s + after)[..|s + after| - 1] == s + t;
      TrimRightExact(s, t);
    }
  }

  /** Neither end is white space. */
  ghost predicate Tidy(s: string) {
    s != "" && !IsSpace(s[0]) && !IsSpace(s[|s| - 1])
  }

  lemma TrimTidy(s: string)
    requires Tidy(s)
    ensures TrimSpace(s) == s
  {
    TrimExact("", s, "");
    assert "" + s + "" == s;
  }

  lemma {:induction false} TrimRightTidies(s: string)
    ensures TrimRight(s) <= s
    ensures TrimRight(s) != "" ==> !IsSpace(TrimRight(s)[|TrimRight(s)| - 1])
  {
    if s != [] && IsSpace(s[|s| - 1]) {
      TrimRightTidies(s[..|s| - 1]);
    }
  }

  lemma {:induction false} TrimLeftTidies(s: string)
    ensures TrimLeft(s) != "" ==> !IsSpace(TrimLeft(s)[0])
  {
    if s != [] && IsSpace(s[0]) {
      TrimLeftTidies(s[1..]);
    }
  }

  lemma TrimmedIsTidy(s: string)
    ensures TrimSpace(s) == "" || Tidy(TrimSpace(s))
  {
    TrimLeftTidies(s);
    TrimRightTidies(TrimLeft(s));
  }
}
