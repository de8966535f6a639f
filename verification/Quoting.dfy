/** Quoting of a one-line value, as strconv.Quote writes it and the requirements parser reads it back. */
module Quoting {
  import opened Options
  import opened Text

  const HEX: string := "0123456789abcdef"

  /** The letter of a short escape. */
  function ShortEscape(n: int): Option<char> {
    if n == 7 then Some('a')
    else if n == 8 then Some('b')
    else if n == 9 then Some('t')
    else if n == 10 then Some('n')
    else if n == 11 then Some('v')
    else if n == 12 then Some('f')
    else if n == 13 then Some('r')
    else None
  }

  /** n in hexadecimal, in so many digits. */
  function Hex(n: nat, digits: nat): (h: string)
    ensures |h| == digits
    ensures forall i :: 0 <= i < |h| ==> h[i] != '"' && h[i] != '\\' && h[i] != '\n'
  {
    assert forall i :: 0 <= i < 16 ==> HEX[i] != '"' && HEX[i] != '\\' && HEX[i] != '\n';
    if digits == 0 then "" else Hex(n / 16, digits - 1) + [HEX[n % 16]]
  }

  /** What follows the backslash where a character is not printed as it is. */
  function Escape(c: char): (e: string)
    ensures |e| >= 1 && forall i :: 0 <= i < |e| ==> e[i] != '"' && e[i] != '\\' && e[i] != '\n'
  {
    var n := c as int;
    if ShortEscape(n).Some? then [ShortEscape(n).value]
    else if n < 32 || n == 127 then "x" + Hex(n, 2)
    else if n < 0x1_0000 then "u" + Hex(n, 4)
    else "U" + Hex(n, 8)
  }

  /** One character between the quotes; printable stands for strconv.IsPrint. */
  function QuoteChar(printable: char -> bool, c: char): string {
    if c == '"' || c == '\\' then ['\\', c]
    else if printable(c) then [c]
    else ['\\'] + Escape(c)
  }

  function QuoteBody(printable: char -> bool, s: string): string {
    if s == [] then [] else QuoteChar(printable, s[0]) + QuoteBody(printable, s[1..])
  }

  function Quote(printable: char -> bool, s: string): string {
    "\"" + QuoteBody(printable, s) + "\""
  }

  /** The two successive ReplaceAll passes of the parser. */
  function Unescape(s: string): string {
    Replace(Replace(s, '\\', '"', '"'), '\\', '\\', '\\')
  }

  /** The text between a double quote and the next one that is not escaped; an escaped line break ends the match. */
  function ScanDouble(t: string): Option<string> {
    if t == [] then None
    else if t[0] == '"' then Some("")
    else if t[0] != '\\' then
      match ScanDouble(t[1..])
      case None => None
      case Some(r) => Some([t[0]] + r)
    else if |t| < 2 || t[1] == '\n' then None
    else
      match ScanDouble(t[2..])
      case None => None
      case Some(r) => Some([t[0], t[1]] + r)
  }

  // ---------------------------------------------------------- what comes back

  /** What neither the quoting nor the two passes change in the end. */
  predicate Plain(printable: char -> bool, c: char) {
    c == '"' || c == '\\' || printable(c)
  }

  /** Any other character comes back as the text of its escape. */
  function ExpandChar(printable: char -> bool, c: char): string {
    if Plain(printable, c) then [c] else ['\\'] + Escape(c)
  }

  function Expand(printable: char -> bool, s: string): string {
    if s == [] then [] else ExpandChar(printable, s[0]) + Expand(printable, s[1..])
  }

  /** Between the passes quotes are plain again and backslashes still doubled. */
  function HalfChar(printable: char -> bool, c: char): string {
    if c == '\\' then ['\\', '\\'] else ExpandChar(printable, c)
  }

  function Half(printable: char -> bool, s: string): string {
    if s == [] then [] else HalfChar(printable, s[0]) + Half(printable, s[1..])
  }

  lemma QuoteBodyHead(printable: char -> bool, s: string)
    ensures QuoteBody(printable, s) == [] || QuoteBody(printable, s)[0] != '"'
  {
  }

  lemma {:induction false} FirstPass(printable: char -> bool, s: string)
    ensures Replace(QuoteBody(printable, s), '\\', '"', '"') == Half(printable, s)
  {
    if s != [] {
      var c, rest := s[0], QuoteBody(printable, s[1..]);
      FirstPass(printable, s[1..]);
      QuoteBodyHead(printable, s[1..]);
      FirstPassChar(printable, c, rest, Half(printable, s[1..]));
    }
  }

  lemma {:induction false} FirstPassChar(printable: char -> bool, c: char, rest: string, half: string)
    requires Replace(rest, '\\', '"', '"') == half && (rest == [] || rest[0] != '"')
    ensures Replace(QuoteChar(printable, c) + rest, '\\', '"', '"') == HalfChar(printable, c) + half
  {
    hide Replace;
    if c == '"' {
      ReplaceHit(rest, '\\', '"', '"');
    } else if c == '\\' {
      assert ['\\', '\\'] + rest == ['\\'] + (['\\'] + rest);
      ReplaceMiss('\\', ['\\'] + rest, '\\', '"', '"');
      ReplaceMiss('\\', rest, '\\', '"', '"');
      assert ['\\'] + (['\\'] + half) == ['\\', '\\'] + half;
    } else {
      PassOver(printable, c, rest, '"', '"');
    }
  }

  /** Neither pass changes an ordinary character or the escape of one that is not printable. */
  lemma PassOver(printable: char -> bool, c: char, rest: string, b: char, r: char)
    requires c != '\\' && c != '"' && (b == '"' || b == '\\')
    ensures Replace(ExpandChar(printable, c) + rest, '\\', b, r) == ExpandChar(printable, c) + Replace(rest, '\\', b, r)
  {
    if !Plain(printable, c) {
      var e := Escape(c);
      assert ExpandChar(printable, c) + rest == ['\\'] + (e + rest);
      ReplaceMiss('\\', e + rest, '\\', b, r);
      ReplaceMisses(e, rest, '\\', b, r);
      assert ['\\'] + (e + Replace(rest, '\\', b, r)) == ExpandChar(printable, c) + Replace(rest, '\\', b, r);
    } else {
      ReplaceMiss(c, rest, '\\', b, r);
    }
  }

  lemma {:induction false} SecondPass(printable: char -> bool, s: string)
    ensures Replace(Half(printable, s), '\\', '\\', '\\') == Expand(printable, s)
  {
    if s != [] {
      var c, rest := s[0], Half(printable, s[1..]);
      SecondPass(printable, s[1..]);
      if c == '\\' {
        ReplaceHit(rest, '\\', '\\', '\\');
      } else if c == '"' {
        ReplaceMiss(c, rest, '\\', '\\', '\\');
      } else {
        PassOver(printable, c, rest, '\\', '\\');
      }
    }
  }

  /** The two passes undo quoting for every mix of backslashes and quotes; only what is not printable stays escaped. */
  lemma UnescapeQuoted(printable: char -> bool, s: string)
    ensures Unescape(QuoteBody(printable, s)) == Expand(printable, s)
  {
    FirstPass(printable, s);
    SecondPass(printable, s);
  }

  ghost predicate Clean(printable: char -> bool, s: string) {
    forall i :: 0 <= i < |s| ==> Plain(printable, s[i])
  }

  lemma {:induction false} ExpandLength(printable: char -> bool, s: string)
    ensures |Expand(printable, s)| >= |s|
    ensures Expand(printable, s) == s <==> Clean(printable, s)
    ensures !Clean(printable, s) ==> |Expand(printable, s)| > |s|
  {
    if s != [] {
      ExpandLength(printable, s[1..]);
      assert s == [s[0]] + s[1..];
      assert Clean(printable, s) <==> Plain(printable, s[0]) && Clean(printable, s[1..]);
    }
  }

  /** So a value comes back unchanged exactly when every character is printable (or a quote or a backslash). */
  lemma QuotingRoundTrip(printable: char -> bool, s: string)
    ensures Unescape(QuoteBody(printable, s)) == s <==> Clean(printable, s)
  {
    UnescapeQuoted(printable, s);
    ExpandLength(printable, s);
  }

  lemma HexOfA0()
    ensures Hex(0xA0, 4) == ['0', '0', 'a', '0']
  {
    assert Hex(0, 0) == "" && Hex(0, 1) == ['0'] && Hex(0, 2) == ['0', '0'] && Hex(0xA, 3) == ['0', '0', 'a'];
  }

  /** A no-break space, which strconv does not print, comes back as six characters. */
  lemma NoBreakSpace(printable: char -> bool)
    requires !printable('\U{A0}')
    ensures Unescape(QuoteBody(printable, ['\U{A0}'])) == ['\\', 'u', '0', '0', 'a', '0']
  {
    hide QuoteBody, Unescape, Hex;
    var s := ['\U{A0}'];
    UnescapeQuoted(printable, s);
    HexOfA0();
    assert Escape('\U{A0}') == ['u', '0', '0', 'a', '0'];
    assert s[1..] == [];
    assert Expand(printable, s) == ExpandChar(printable, s[0]) + [];
  }

  lemma ScanPlain(c: char, t: string)
    requires c != '"' && c != '\\'
    ensures ScanDouble([c] + t) == if ScanDouble(t).Some? then Some([c] + ScanDouble(t).value) else None
  {
    assert ([c] + t)[1..] == t;
  }

  lemma ScanEscape(c: char, t: string)
    requires c != '\n'
    ensures ScanDouble(['\\', c] + t) == if ScanDouble(t).Some? then Some(['\\', c] + ScanDouble(t).value) else None
  {
    assert (['\\', c] + t)[2..] == t;
  }

  lemma {:induction false} ScanPlains(x: string, t: string, body: string)
    requires forall i :: 0 <= i < |x| ==> x[i] != '"' && x[i] != '\\'
    requires ScanDouble(t) == Some(body)
    ensures ScanDouble(x + t) == Some(x + body)
  {
    if x == [] {
      assert x + t == t && x + body == body;
    } else {
      ScanPlains(x[1..], t, body);
      assert x + t == [x[0]] + (x[1..] + t) && x + body == [x[0]] + (x[1..] + body);
      ScanPlain(x[0], x[1..] + t);
    }
  }

  lemma EscapeSplits(e: string, t: string)
    requires e != []
    ensures ['\\'] + e + t == ['\\', e[0]] + (e[1..] + t)
  {
  }

  lemma {:induction false} ScanEscaped(printable: char -> bool, c: char, t: string, body: string)
    requires !Plain(printable, c) && ScanDouble(t) == Some(body)
    ensures ScanDouble(QuoteChar(printable, c) + t) == Some(QuoteChar(printable, c) + body)
  {
    hide ScanDouble;
    var e := Escape(c);
    ScanPlains(e[1..], t, body);
    ScanEscape(e[0], e[1..] + t);
    EscapeSplits(e, t);
    EscapeSplits(e, body);
  }

  lemma {:induction false} ScanChar(printable: char -> bool, c: char, t: string, body: string)
    requires ScanDouble(t) == Some(body)
    ensures ScanDouble(QuoteChar(printable, c) + t) == Some(QuoteChar(printable, c) + body)
  {
    if c == '"' || c == '\\' {
      ScanEscape(c, t);
    } else if !Plain(printable, c) {
      ScanEscaped(printable, c, t, body);
    } else {
      ScanPlain(c, t);
    }
  }

  lemma ScanEnd(printable: char -> bool, rest: string)
    ensures ScanDouble(QuoteBody(printable, "") + ("\"" + rest)) == Some(QuoteBody(printable, ""))
  {
    assert QuoteBody(printable, "") + ("\"" + rest) == "\"" + rest;
  }

  /** The closing quote of a quoted value is the one that was written, whatever follows. */
  lemma {:induction false} ScanQuoted(printable: char -> bool, s: string, rest: string)
    ensures ScanDouble(QuoteBody(printable, s) + ("\"" + rest)) == Some(QuoteBody(printable, s))
  {
    hide ScanDouble, QuoteChar;
    if s == [] {
      ScanEnd(printable, rest);
    } else {
      var body, end := QuoteBody(printable, s[1..]), "\"" + rest;
      ScanQuoted(printable, s[1..], rest);
      ScanChar(printable, s[0], body + end, body);
      Reassociate(QuoteChar(printable, s[0]), body, end);
    }
  }

  lemma {:induction false} QuoteBodyNoBreak(printable: char -> bool, s: string)
    requires '\n' !in s
    ensures '\n' !in QuoteBody(printable, s)
  {
    if s != [] {
      QuoteBodyNoBreak(printable, s[1..]);
      assert s[0] != '\n' && forall i :: 0 <= i < |QuoteChar(printable, s[0])| ==> QuoteChar(printable, s[0])[i] != '\n';
    }
  }

  // ------------------------------------------------------ what an escape says

  ghost function HexDigit(c: char): int {
    if '0' <= c <= '9' then c as int - '0' as int else c as int - 'a' as int + 10
  }

  ghost function HexValue(h: string): int {
    if h == "" then 0 else 16 * HexValue(h[..|h| - 1]) + HexDigit(h[|h| - 1])
  }

  /** The code point that an escape of Go's strings stands for, without the backslash. */
  ghost function Meaning(e: string): int
    requires e != ""
  {
    if e == "a" then 7 else if e == "b" then 8 else if e == "t" then 9 else if e == "n" then 10
    else if e == "v" then 11 else if e == "f" then 12 else if e == "r" then 13
    else if (e[0] == 'x' && |e| == 3) || (e[0] == 'u' && |e| == 5) || (e[0] == 'U' && |e| == 9) then HexValue(e[1..])
    else -1
  }

  lemma {:induction false} HexReads(n: nat, digits: nat)
    requires n < Power(digits)
    ensures HexValue(Hex(n, digits)) == n
    ensures forall i :: 0 <= i < digits ==> '0' <= Hex(n, digits)[i] <= '9' || 'a' <= Hex(n, digits)[i] <= 'f'
  {
    if digits > 0 {
      HexReads(n / 16, digits - 1);
      var h := Hex(n, digits);
      assert h[..|h| - 1] == Hex(n / 16, digits - 1) && h[|h| - 1] == HEX[n % 16];
      HexDigits(n % 16);
    }
  }

  lemma HexDigits(d: nat)
    requires d < 16
    ensures HexDigit(HEX[d]) == d && ('0' <= HEX[d] <= '9' || 'a' <= HEX[d] <= 'f')
  {
  }

  ghost function Power(digits: nat): nat {
    if digits == 0 then 1 else 16 * Power(digits - 1)
  }

  lemma Powers()
    ensures Power(2) == 0x100 && Power(4) == 0x1_0000 && Power(8) == 0x1_0000_0000
  {
    assert Power(3) == 16 * Power(2) && Power(5) == 16 * Power(4) && Power(6) == 16 * Power(5) && Power(7) == 16 * Power(6);
  }

  /** What is not printed as it is stands in the text as an escape of that very character. */
  lemma EscapeMeans(c: char)
    ensures Meaning(Escape(c)) == c as int
  {
    hide Hex, HexValue, Power;
    var n, e := c as int, Escape(c);
    Powers();
    if ShortEscape(n).None? {
      var digits := if n < 32 || n == 127 then 2 else if n < 0x1_0000 then 4 else 8;
      HexReads(n, digits);
      assert e[1..] == Hex(n, digits);
    }
  }
}
