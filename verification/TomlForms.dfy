/** What the reader of the requirements file makes of any text, written by hand or not. */
module TomlForms {
  import opened Options
  import opened Text
  import opened Quoting
  import opened RequirementsFile

  // ------------------------------------------------------------------- blanks

  /** The characters of \s. */
  ghost predicate GapChar(c: char) {
    c == ' ' || c == '\t' || c == '\n' || c == '\r' || c == '\U{C}'
  }

  ghost predicate Gap(s: string) {
    forall i :: 0 <= i < |s| ==> GapChar(s[i])
  }

  /** The characters with the property White_Space. */
  ghost predicate WhiteChar(c: char) {
    var n := c as int;
    || 9 <= n <= 13 || n == 32 || n == 0x85 || n == 0xA0 || n == 0x1680 || 0x2000 <= n <= 0x200A || n == 0x2028
    || n == 0x2029 || n == 0x202F || n == 0x205F || n == 0x3000
  }

  ghost predicate White(s: string) {
    forall i :: 0 <= i < |s| ==> WhiteChar(s[i])
  }

  lemma Tables(c: char)
    ensures IsBlank(c) <==> GapChar(c)
    ensures IsSpace(c) <==> WhiteChar(c)
  {
  }

  ghost predicate StartsBlack(s: string) {
    s == "" || !GapChar(s[0])
  }

  lemma {:induction false} SkipLaw(s: string) returns (gap: string)
    ensures s == gap + SkipBlanks(s) && Gap(gap) && StartsBlack(SkipBlanks(s))
  {
    gap := "";
    if s != "" {
      Tables(s[0]);
      if IsBlank(s[0]) {
        var more := SkipLaw(s[1..]);
        gap := [s[0]] + more;
        assert s == [s[0]] + s[1..];
      }
    }
  }

  lemma {:induction false} SkipGap(gap: string, t: string)
    requires Gap(gap) && StartsBlack(t)
    ensures SkipBlanks(gap + t) == t
  {
    if gap == "" {
      assert gap + t == t;
      if t != "" {
        Tables(t[0]);
      }
    } else {
      Tables(gap[0]);
      assert (gap + t)[1..] == gap[1..] + t;
      SkipGap(gap[1..], t);
    }
  }

  /** Trimming takes the white space from both ends and nothing else. */
  lemma {:induction false} TrimLaw(s: string) returns (before: string, after: string)
    ensures s == before + TrimSpace(s) + after && White(before) && White(after)
    ensures TrimSpace(s) == "" || (!WhiteChar(TrimSpace(s)[0]) && !WhiteChar(TrimSpace(s)[|TrimSpace(s)| - 1]))
  {
    hide TrimLeft, TrimRight, White, WhiteChar;
    before := TrimLeftLaw(s);
    after := TrimRightLaw(TrimLeft(s));
    var t := TrimSpace(s);
    if t != "" {
      assert TrimLeft(s)[0] == t[0];
    }
  }

  lemma {:induction false} TrimLeftLaw(s: string) returns (before: string)
    ensures s == before + TrimLeft(s) && White(before) && (TrimLeft(s) == "" || !WhiteChar(TrimLeft(s)[0]))
  {
    hide WhiteChar, IsSpace;
    before := "";
    if s != "" {
      Tables(s[0]);
      if IsSpace(s[0]) {
        before := TrimLeftLaw(s[1..]);
        before := [s[0]] + before;
        assert s == [s[0]] + s[1..];
      }
    }
  }

  lemma {:induction false} TrimRightLaw(s: string) returns (after: string)
    ensures s == TrimRight(s) + after && White(after)
    ensures TrimRight(s) == "" || !WhiteChar(TrimRight(s)[|TrimRight(s)| - 1])
  {
    hide WhiteChar, IsSpace;
    after := "";
    if s != "" {
      var last := s[|s| - 1];
      Tables(last);
      if IsSpace(last) {
        after := TrimRightLaw(s[..|s| - 1]);
        after := after + [last];
        assert s == s[..|s| - 1] + [last];
      }
    }
  }

  // ------------------------------------------------------------------- values

  ghost predicate MarkAt(s: string, mark: string, k: nat) {
    k <= |s| && mark <= s[k..]
  }

  /** Up to the first occurrence of a mark. */
  lemma {:induction false} UpToLaw(s: string, mark: string, t: string)
    ensures UpTo(s, mark) == Some(t) <==> t <= s && MarkAt(s, mark, |t|) && forall k: nat :: k < |t| ==> !MarkAt(s, mark, k)
  {
    if mark <= s {
      assert MarkAt(s, mark, 0);
    } else if s == "" {
    } else {
      var u := if t == "" then "" else t[1..];
      UpToLaw(s[1..], mark, u);
      forall k: nat
        ensures MarkAt(s, mark, k + 1) <==> MarkAt(s[1..], mark, k)
      {
        if k < |s| {
          assert s[k + 1..] == s[1..][k..];
        }
      }
      assert !MarkAt(s, mark, 0);
      if t != "" && t[0] == s[0] {
        assert t == [s[0]] + u;
        assert t <= s <==> u <= s[1..];
        forall k: nat | k < |t|
          ensures k > 0 ==> (MarkAt(s, mark, k) <==> MarkAt(s[1..], mark, k - 1))
        {
        }
        if forall k: nat :: k < |t| ==> !MarkAt(s, mark, k) {
          forall k: nat | k < |u| ensures !MarkAt(s[1..], mark, k) { assert !MarkAt(s, mark, k + 1); }
        }
      }
    }
  }

  /** Text between double quotes: anything but quotes and backslashes, or a backslash and what it escapes on the line. */
  ghost predicate Escaped(body: string) {
    if body == "" then true
    else if body[0] == '\\' then |body| >= 2 && body[1] != '\n' && Escaped(body[2..])
    else body[0] != '"' && Escaped(body[1..])
  }

  lemma PrefixTail(q: string, t: string, n: nat)
    requires n <= |q| && n <= |t| && forall i :: 0 <= i < n ==> q[i] == t[i]
    ensures q <= t <==> q[n..] <= t[n..]
  {
    if q <= t {
      assert forall i :: 0 <= i < |q| ==> q[i] == t[i];
    }
    if q[n..] <= t[n..] {
      forall i | 0 <= i < |q|
        ensures q[i] == t[i]
      {
        assert i >= n ==> q[i] == q[n..][i - n] == t[n..][i - n] == t[i];
      }
    }
  }

  lemma {:induction false} ScanLaw(t: string, body: string)
    ensures ScanDouble(t) == Some(body) <==> Escaped(body) && body + "\"" <= t
    decreases |t|
  {
    var q := body + "\"";
    assert |q| == |body| + 1 && q[|body|] == '"' && forall i :: 0 <= i < |body| ==> q[i] == body[i];
    if t == "" || t[0] == '"' || (t[0] == '\\' && (|t| < 2 || t[1] == '\n')) {
      assert q <= t ==> q[0] == t[0];
      assert q <= t && |q| >= 2 ==> q[1] == t[1];
    } else if t[0] == '\\' {
      ScanEscape(t, body);
    } else {
      ScanPlainChar(t, body);
    }
  }

  lemma {:induction false} ScanPlainChar(t: string, body: string)
    requires t != "" && t[0] != '"' && t[0] != '\\'
    ensures ScanDouble(t) == Some(body) <==> Escaped(body) && body + "\"" <= t
    decreases |t|, 0
  {
    var q := body + "\"";
    if body != "" && body[0] == t[0] {
      ScanLaw(t[1..], body[1..]);
      assert body == [t[0]] + body[1..] && q[1..] == body[1..] + "\"";
      PrefixTail(q, t, 1);
    } else {
      assert q[0] != t[0];
      assert ScanDouble(t).Some? ==> ScanDouble(t).value[0] == t[0];
    }
  }

  lemma {:induction false} ScanEscape(t: string, body: string)
    requires |t| >= 2 && t[0] == '\\' && t[1] != '\n'
    ensures ScanDouble(t) == Some(body) <==> Escaped(body) && body + "\"" <= t
    decreases |t|, 0
  {
    var q := body + "\"";
    if |body| >= 2 && body[0] == t[0] && body[1] == t[1] {
      ScanLaw(t[2..], body[2..]);
      assert body == [t[0], t[1]] + body[2..] && q[2..] == body[2..] + "\"";
      PrefixTail(q, t, 2);
    } else {
      assert ScanDouble(t).Some? ==> ScanDouble(t).value[0] == t[0] && ScanDouble(t).value[1] == t[1];
      assert q <= t ==> q[0] == t[0] && (|q| >= 2 ==> q[1] == t[1]);
      assert body != "" ==> body[0] == q[0];
      assert |body| >= 2 ==> body[1] == q[1];
    }
  }

  function Delimiter(form: Form): string {
    match form
    case MultiDouble => "\"\"\""
    case MultiSingle => "'''"
    case Double => "\""
    case Single => "'"
  }

  /** The value ends at this delimiter and no earlier. */
  ghost predicate Encloses(form: Form, v: string, rest: string) {
    if form == Double then Escaped(v)
    else forall k: nat :: k < |v| ==> !MarkAt(v + Delimiter(form) + rest, Delimiter(form), k)
  }

  lemma {:induction false} ValueLaw(form: Form, v: string, rest: string)
    requires Encloses(form, v, rest)
    ensures ValueAt(Delimiter(form) + v + Delimiter(form) + rest, form) == Some(v)
  {
    hide UpTo, ScanDouble, Escaped;
    var d := Delimiter(form);
    var inner, t := v + d + rest, d + v + d + rest;
    assert t == d + inner && t[|d|..] == inner;
    if form == Double {
      assert v + "\"" <= inner;
      ScanLaw(inner, v);
    } else {
      assert inner[|v|..] == d + rest && MarkAt(inner, d, |v|);
      UpToLaw(inner, d, v);
    }
  }

  lemma {:induction false} ValueOnly(t: string, form: Form) returns (rest: string)
    requires ValueAt(t, form).Some?
    ensures var v := ValueAt(t, form).value;
            t == Delimiter(form) + v + Delimiter(form) + rest && Encloses(form, v, rest)
  {
    if form == Double {
      rest := DoubleOnly(t);
    } else {
      rest := MarkedOnly(t, form);
    }
  }

  lemma DoubleOnly(t: string) returns (rest: string)
    requires ValueAt(t, Double).Some?
    ensures var v := ValueAt(t, Double).value;
            t == "\"" + v + "\"" + rest && Escaped(v)
  {
    hide ScanDouble, Escaped;
    var v, inner := ValueAt(t, Double).value, t[1..];
    ScanLaw(inner, v);
    var q := v + "\"";
    rest := inner[|q|..];
    assert inner == q + rest && t == "\"" + inner;
    assert t == "\"" + v + "\"" + rest;
  }

  lemma MarkedOnly(t: string, form: Form) returns (rest: string)
    requires form != Double && ValueAt(t, form).Some?
    ensures var v := ValueAt(t, form).value;
            t == Delimiter(form) + v + Delimiter(form) + rest && Encloses(form, v, rest)
  {
    hide UpTo;
    var d, v := Delimiter(form), ValueAt(t, form).value;
    assert d <= t && UpTo(t[|d|..], d) == Some(v);
    rest := FirstMark(t[|d|..], d, v);
    assert t == d + t[|d|..];
    assert t == d + v + d + rest;
  }

  lemma FirstMark(inner: string, d: string, v: string) returns (rest: string)
    requires UpTo(inner, d) == Some(v)
    ensures inner == v + d + rest && forall k: nat :: k < |v| ==> !MarkAt(v + d + rest, d, k)
  {
    hide UpTo;
    UpToLaw(inner, d, v);
    var tail := inner[|v|..];
    rest := tail[|d|..];
    assert inner == v + tail && tail == d + rest;
  }

  // ---------------------------------------------------------------- key lines

  /** A line that gives a key, blanks around the equals sign. */
  ghost predicate GivesKey(s: string, key: string, t: string) {
    exists x, y :: Gap(x) && Gap(y) && s == key + x + "=" + y + t
  }

  lemma AfterKeyLaw(s: string, key: string, t: string)
    ensures AfterKey(s, key) == Some(t) <==> GivesKey(s, key, t) && StartsBlack(t)
  {
    hide AfterKey, GivesKey, StartsBlack;
    if AfterKey(s, key) == Some(t) {
      KeyFound(s, key, t);
    }
    if GivesKey(s, key, t) && StartsBlack(t) {
      KeyThere(s, key, t);
    }
  }

  lemma KeyFound(s: string, key: string, t: string)
    requires AfterKey(s, key) == Some(t)
    ensures GivesKey(s, key, t) && StartsBlack(t)
  {
    hide SkipBlanks, Gap;
    var tail := s[|key|..];
    var x := SkipLaw(tail);
    var u := SkipBlanks(tail);
    var y := SkipLaw(u[1..]);
    assert s == key + tail && tail == x + u && u == "=" + u[1..] && u[1..] == y + t;
    Regroup(key, x, y, t);
    assert s == key + x + "=" + y + t;
  }

  lemma Regroup(key: string, x: string, y: string, t: string)
    ensures key + (x + ("=" + (y + t))) == key + x + "=" + y + t
  {
  }

  lemma KeyThere(s: string, key: string, t: string)
    requires GivesKey(s, key, t) && StartsBlack(t)
    ensures AfterKey(s, key) == Some(t)
  {
    hide SkipBlanks, Gap;
    var x, y :| Gap(x) && Gap(y) && s == key + x + "=" + y + t;
    Regroup(key, x, y, t);
    var u := "=" + (y + t);
    Dropped(key, x + u);
    assert key <= s && s[|key|..] == x + u;
    SkipGap(x, u);
    SkipGap(y, t);
    assert u[1..] == y + t;
  }

  lemma DelimiterIsBlack(form: Form, t: string)
    requires Delimiter(form) <= t
    ensures StartsBlack(t)
  {
    assert t[0] == Delimiter(form)[0];
  }

  /** A key's value in one of the four forms, at the start of a line. */
  ghost predicate KeyLine(s: string, key: string, form: Form, v: string) {
    exists rest :: && GivesKey(s, key, Delimiter(form) + v + Delimiter(form) + rest) && Encloses(form, v, rest)
  }

  lemma MatchLaw(s: string, key: string, form: Form, v: string)
    ensures MatchAt(s, key, form) == Some(v) <==> KeyLine(s, key, form, v)
  {
    hide AfterKey, ValueAt, GivesKey, StartsBlack, Delimiter, Encloses;
    if MatchAt(s, key, form) == Some(v) {
      var t := AfterKey(s, key).value;
      AfterKeyLaw(s, key, t);
      var rest := ValueOnly(t, form);
    }
    if rest :| GivesKey(s, key, Delimiter(form) + v + Delimiter(form) + rest) && Encloses(form, v, rest) {
      var t := Delimiter(form) + v + Delimiter(form) + rest;
      DelimiterIsBlack(form, t);
      AfterKeyLaw(s, key, t);
      ValueLaw(form, v, rest);
    }
  }

  // ------------------------------------------------------------------- blocks

  ghost predicate LineStart(s: string, p: nat) {
    p <= |s| && (p == 0 || s[p - 1] == '\n')
  }

  /** The first line at which a form of the key matches. */
  ghost predicate FirstLine(block: string, key: string, form: Form, p: nat, v: string) {
    && LineStart(block, p) && KeyLine(block[p..], key, form, v)
    && forall q: nat, u :: q < p && LineStart(block, q) ==> !KeyLine(block[q..], key, form, u)
  }

  lemma {:induction false} NextLineAtBreak(s: string) returns (n: nat)
    ensures match NextLine(s)
            case None => '\n' !in s
            case Some(t) => n < |s| && s[n] == '\n' && '\n' !in s[..n] && t == s[n + 1..]
  {
    n := 0;
    if s != "" && s[0] != '\n' {
      n := NextLineAtBreak(s[1..]);
      n := n + 1;
    }
  }

  lemma {:induction false} FirstMatchLaw(block: string, key: string, form: Form)
    ensures FirstMatch(block, key, form).Some? ==>
              exists p: nat :: FirstLine(block, key, form, p, FirstMatch(block, key, form).value)
    ensures FirstMatch(block, key, form).None? ==>
              forall p: nat, v :: LineStart(block, p) ==> !KeyLine(block[p..], key, form, v)
    decreases |block|
  {
    hide MatchAt, KeyLine, NextLine;
    assert block[0..] == block;
    forall v
      ensures MatchAt(block, key, form) == Some(v) <==> KeyLine(block, key, form, v)
    {
      MatchLaw(block, key, form, v);
    }
    if MatchAt(block, key, form).Some? {
      assert FirstLine(block, key, form, 0, MatchAt(block, key, form).value);
    } else {
      NextLineShorter(block);
      var n := NextLineAtBreak(block);
      if NextLine(block).None? {
        assert forall p: nat :: LineStart(block, p) ==> p == 0;
      } else {
        var t := block[n + 1..];
        FirstMatchLaw(t, key, form);
        assert forall q: nat :: q < n ==> block[q] == block[..n][q];
        assert forall q: nat :: q < n ==> block[q] != '\n';
        forall p: nat | LineStart(block, p) && p > 0
          ensures p >= n + 1 && LineStart(t, p - (n + 1)) && block[p..] == t[p - (n + 1)..]
        {
        }
        if FirstMatch(t, key, form).Some? {
          var q: nat :| FirstLine(t, key, form, q, FirstMatch(t, key, form).value);
          var p := q + (n + 1);
          assert block[p..] == t[q..] && LineStart(block, p);
          assert FirstLine(block, key, form, p, FirstMatch(t, key, form).value);
        }
      }
    }
  }

  /** No line of the block gives the key in this form. */
  ghost predicate NoLine(block: string, key: string, form: Form) {
    forall p: nat, v :: LineStart(block, p) ==> !KeyLine(block[p..], key, form, v)
  }

  lemma OneFirstLine(block: string, key: string, form: Form, p: nat, v: string)
    requires FirstLine(block, key, form, p, v)
    ensures FirstMatch(block, key, form) == Some(v)
  {
    hide KeyLine, FirstMatch;
    FirstMatchLaw(block, key, form);
    var u := FirstMatch(block, key, form).value;
    var q: nat :| FirstLine(block, key, form, q, u);
    assert q == p;
    MatchLaw(block[p..], key, form, u);
    MatchLaw(block[p..], key, form, v);
  }

  /** What is read: the first value between three double quotes, else the first between three single ones, else the
      first between double quotes with its escapes undone, else the first between single quotes as it stands. */
  lemma ExtractLaw(block: string, key: string, form: Form, p: nat, v: string)
    requires FirstLine(block, key, form, p, v)
    requires form != MultiDouble ==> NoLine(block, key, MultiDouble)
    requires form == Double || form == Single ==> NoLine(block, key, MultiSingle)
    requires form == Single ==> NoLine(block, key, Double)
    ensures Extract(block, key) == if form == Double then Unescape(v) else v
  {
    hide FirstMatch, FirstLine, KeyLine;
    OneFirstLine(block, key, form, p, v);
    NotThere(block, key, MultiDouble);
    NotThere(block, key, MultiSingle);
    NotThere(block, key, Double);
  }

  lemma NotThere(block: string, key: string, form: Form)
    ensures NoLine(block, key, form) ==> FirstMatch(block, key, form) == None
  {
    hide KeyLine, FirstMatch;
    FirstMatchLaw(block, key, form);
  }

  lemma NothingGiven(block: string, key: string)
    requires forall form :: NoLine(block, key, form)
    ensures Extract(block, key) == ""
  {
    hide FirstMatch, NoLine;
    forall form: Form
      ensures FirstMatch(block, key, form) == None
    {
      NotThere(block, key, form);
    }
  }

  /** A value in single quotes, with blanks as one likes around the equals sign, is read as it stands. */
  lemma HandWritten(key: string, x: string, y: string, v: string, comment: string)
    requires Gap(x) && Gap(y)
    requires '\'' !in key && '\'' !in v && '\'' !in comment && '"' !in key && '"' !in v && '"' !in comment
    ensures Extract(key + x + "=" + y + "'" + v + "'" + comment, key) == v
  {
    var s := key + x + "=" + y + "'" + v + "'" + comment;
    assert s == key + x + "=" + y + (Delimiter(Single) + v + Delimiter(Single) + comment);
    forall k: nat | k < |v|
      ensures !MarkAt(v + "'" + comment, "'", k)
    {
      assert (v + "'" + comment)[k..][0] == v[k];
    }
    assert Encloses(Single, v, comment);
    assert KeyLine(s, key, Single, v) && s[0..] == s;
    NoQuote(s, key, MultiDouble);
    NoQuote(s, key, Double);
    NoTriple(s, key, v, comment, key + x + "=" + y);
    ExtractLaw(s, key, Single, 0, v);
  }

  lemma KeyLineQuotes(s: string, p: nat, key: string, form: Form, v: string) returns (n: nat)
    requires p <= |s| && KeyLine(s[p..], key, form, v)
    ensures n <= |s| && Delimiter(form) <= s[n..]
  {
    hide Encloses, Delimiter, Gap;
    var t, d := s[p..], Delimiter(form);
    var rest :| GivesKey(t, key, d + v + d + rest);
    var x, y :| Gap(x) && Gap(y) && t == key + x + "=" + y + (d + v + d + rest);
    var before, after := key + x + "=" + y, d + v + d + rest;
    n := p + |before|;
    Dropped(before, after);
    assert s[n..] == t[|before|..];
    Headed(d, v, d, rest);
  }

  lemma Dropped(a: string, b: string)
    ensures (a + b)[|a|..] == b
  {
  }

  lemma Headed(a: string, b: string, c: string, d: string)
    ensures a <= a + b + c + d
  {
  }

  lemma NoQuote(s: string, key: string, form: Form)
    requires '"' !in s && (form == MultiDouble || form == Double)
    ensures NoLine(s, key, form)
  {
    hide KeyLine;
    forall p: nat, v | LineStart(s, p)
      ensures KeyLine(s[p..], key, form, v) ==> exists n: nat :: n < |s| && s[n] == '"'
    {
      if KeyLine(s[p..], key, form, v) {
        var n := KeyLineQuotes(s, p, key, form, v);
        QuotedAt(s, n, form);
      }
    }
  }

  lemma QuotedAt(s: string, n: nat, form: Form)
    requires n <= |s| && Delimiter(form) <= s[n..]
    ensures n < |s| && s[n] == Delimiter(form)[0]
    ensures form == MultiSingle ==> n + 2 < |s| && s[n + 1] == s[n + 2] == '\''
  {
    assert s[n..][0] == Delimiter(form)[0];
    assert form == MultiSingle ==> s[n..][1] == '\'' && s[n..][2] == '\'';
  }

  /** Two single quotes in all do not make three. */
  lemma NoTriple(s: string, key: string, v: string, comment: string, before: string)
    requires s == before + "'" + v + "'" + comment
    requires '\'' !in v && '\'' !in comment && '\'' !in before
    ensures NoLine(s, key, MultiSingle)
  {
    hide KeyLine;
    var i, j := |before|, |before| + 1 + |v|;
    forall k: nat | k < |s|
      ensures s[k] == '\'' ==> k == i || k == j
    {
      if k < i {
        assert s[k] == before[k];
      } else if i < k < j {
        assert s[k] == v[k - i - 1];
      } else if k > j {
        assert s[k] == comment[k - j - 1];
      }
    }
    forall p: nat, u | LineStart(s, p)
      ensures KeyLine(s[p..], key, MultiSingle, u) ==> exists k: nat :: k + 2 < |s| && s[k] == s[k + 1] == s[k + 2] == '\''
    {
      if KeyLine(s[p..], key, MultiSingle, u) {
        var n := KeyLineQuotes(s, p, key, MultiSingle, u);
        QuotedAt(s, n, MultiSingle);
      }
    }
  }

  /** A value over several lines, between three double quotes as it is written, is read as it stands. */
  lemma MultiLineBack(printable: char -> bool, f: Field, rest: string)
    requires '\n' in f.value || '\r' in f.value
    requires Encloses(MultiDouble, f.value, rest)
    ensures Extract(Line(printable, f) + rest, f.key) == f.value
  {
    var d, s := Delimiter(MultiDouble), Line(printable, f) + rest;
    assert TomlQuote(printable, f.value) == d + f.value + d;
    assert s == f.key + " " + "=" + " " + (d + f.value + d + rest);
    assert Gap(" ");
    hide Encloses, Delimiter;
    assert GivesKey(s, f.key, d + f.value + d + rest);
    assert KeyLine(s, f.key, MultiDouble, f.value) && s[0..] == s;
    hide KeyLine;
    ExtractLaw(s, f.key, MultiDouble, 0, f.value);
  }

  // ------------------------------------------------------------------ headers

  /** A table header: the text, blanks, and then the end of a line or of the file. */
  ghost predicate IsHeader(s: string, n: nat) {
    && "[[requirement]]" <= s && 15 <= n <= |s| && Gap(s[15..n])
    && (n == |s| || s[n] == '\n')
  }

  lemma {:induction false} BlankRunLaw(s: string)
    ensures Gap(s[..BlankRun(s)]) && (BlankRun(s) == |s| || !GapChar(s[BlankRun(s)]))
  {
    if s != "" {
      Tables(s[0]);
      BlankRunLaw(s[1..]);
      if IsBlank(s[0]) {
        var n := BlankRun(s[1..]);
        assert s[..n + 1] == [s[0]] + s[1..][..n];
      }
    }
  }

  ghost predicate EndsAt(s: string, m: nat) {
    m == |s| || (m < |s| && s[m] == '\n')
  }

  lemma {:induction false} LongestEndLaw(s: string, n: nat)
    requires n <= |s|
    ensures match LongestEnd(s, n)
            case None => forall m: nat :: m <= n ==> !EndsAt(s, m)
            case Some(k) => k <= n && EndsAt(s, k) && forall m: nat :: k < m <= n ==> !EndsAt(s, m)
    decreases n
  {
    if n > 0 {
      LongestEndLaw(s, n - 1);
    }
  }

  lemma HeaderBlanks(s: string, m: nat)
    requires IsHeader(s, m)
    ensures m - 15 <= BlankRun(s[15..])
  {
    hide BlankRun, GapChar;
    var rest := s[15..];
    var run := BlankRun(rest);
    BlankRunLaw(rest);
    assert forall i :: 0 <= i < m - 15 ==> rest[i] == s[15..m][i];
    assert forall i :: 0 <= i < m - 15 ==> GapChar(rest[i]);
  }

  lemma SliceOfRest(s: string, a: nat, k: nat)
    requires a + k <= |s|
    ensures s[a..a + k] == s[a..][..k]
  {
  }

  lemma BlanksHeader(s: string, k: nat)
    requires HEADER <= s && k <= BlankRun(s[15..]) && (k == |s| - 15 || s[15 + k] == '\n')
    ensures IsHeader(s, 15 + k)
  {
    hide BlankRun, GapChar;
    var rest := s[15..];
    BlankRunLaw(rest);
    SliceOfRest(s, 15, k);
    assert s[15..15 + k] == rest[..k] == rest[..BlankRun(rest)][..k];
  }

  /** A header is taken with as many blanks and line breaks after it as end a line. */
  lemma HeaderLaw(s: string)
    ensures HeaderAt(s).Some? ==> IsHeader(s, HeaderAt(s).value)
    ensures forall m: nat :: IsHeader(s, m) ==> HeaderAt(s).Some? && m <= HeaderAt(s).value
  {
    hide LongestEnd, BlankRun, Gap;
    if HEADER <= s {
      var rest := s[15..];
      var run := BlankRun(rest);
      assert |HEADER| == 15 && s[|HEADER|..] == rest;
      LongestEndLaw(rest, run);
      var found := LongestEnd(rest, run);
      assert HeaderAt(s) == if found.None? then None else Some(15 + found.value);
      if found.Some? {
        BlanksHeader(s, found.value);
      }
      forall m: nat | IsHeader(s, m)
        ensures HeaderAt(s).Some? && m <= HeaderAt(s).value
      {
        HeaderBlanks(s, m);
        assert m < |s| ==> s[m] == rest[m - 15];
        var k: nat := m - 15;
        assert k <= run && EndsAt(rest, k);
      }
    }
  }

  /** A place where a line starts; the text before it may have ended a line. */
  ghost predicate Begins(s: string, atLineStart: bool, p: nat) {
    p <= |s| && if p == 0 then atLineStart else s[p - 1] == '\n'
  }

  ghost predicate HeaderIn(s: string, atLineStart: bool, p: nat) {
    p < |s| && Begins(s, atLineStart, p) && HeaderAt(s[p..]).Some?
  }

  lemma HeaderInTail(s: string, atLineStart: bool, p: nat)
    requires s != ""
    ensures HeaderIn(s, atLineStart, p + 1) <==> HeaderIn(s[1..], s[0] == '\n', p)
    ensures p < |s| ==> s[p + 1..] == s[1..][p..]
  {
    hide HeaderAt;
    if p < |s| {
      assert s[p + 1..] == s[1..][p..];
    }
  }

  ghost predicate CutAt(s: string, atLineStart: bool, cut: Cut) {
    var p := |cut.before|;
    && HeaderIn(s, atLineStart, p) && (forall q: nat :: q < p ==> !HeaderIn(s, atLineStart, q))
    && var n := HeaderAt(s[p..]).value;
       cut.before == s[..p] && cut.after == s[p + n..] && cut.atLineStart == (s[p + n - 1] == '\n')
  }

  /** The file is cut at the first header that starts a line, and goes on after it. */
  lemma {:induction false} FindHeaderLaw(s: string, atLineStart: bool)
    ensures match FindHeader(s, atLineStart)
            case None => forall p: nat :: !HeaderIn(s, atLineStart, p)
            case Some(cut) => CutAt(s, atLineStart, cut)
    decreases |s|
  {
    hide HeaderAt, HeaderIn;
    AtOnce(s, atLineStart);
    if s == "" {
      NoneInNothing(atLineStart);
    } else if !(atLineStart && HeaderAt(s).Some?) {
      FindHeaderLaw(s[1..], s[0] == '\n');
      if FindHeader(s[1..], s[0] == '\n').Some? {
        LaterCut(s, atLineStart, FindHeader(s[1..], s[0] == '\n').value);
      } else {
        forall p: nat
          ensures !HeaderIn(s, atLineStart, p)
        {
          if p > 0 {
            HeaderInTail(s, atLineStart, p - 1);
          }
        }
      }
    } else {
      assert s[0..] == s;
    }
  }

  lemma AtOnce(s: string, atLineStart: bool)
    ensures HeaderIn(s, atLineStart, 0) <==> s != "" && atLineStart && HeaderAt(s).Some?
  {
    hide HeaderAt;
    assert s[0..] == s;
  }

  lemma NoneInNothing(atLineStart: bool)
    ensures forall p: nat :: !HeaderIn("", atLineStart, p)
  {
  }

  lemma LaterCut(s: string, atLineStart: bool, cut: Cut)
    requires s != "" && !HeaderIn(s, atLineStart, 0) && CutAt(s[1..], s[0] == '\n', cut)
    ensures CutAt(s, atLineStart, cut.(before := [s[0]] + cut.before))
  {
    hide HeaderAt;
    var p := |cut.before|;
    HeaderInTail(s, atLineStart, p);
    forall q: nat | q < p + 1
      ensures !HeaderIn(s, atLineStart, q)
    {
      if q > 0 {
        HeaderInTail(s, atLineStart, q - 1);
      }
    }
    var n := HeaderAt(s[p + 1..]).value;
    assert s[..p + 1] == [s[0]] + s[1..][..p] && s[1..][p + n..] == s[p + 1 + n..];
    assert s[1..][p + n - 1] == s[p + n];
  }
}
