/** Names in the order of their code points, as Python's sorted puts them. */
module Names {
  import opened Bytes
  import Sorting

  predicate Before(a: string, b: string) {
    b != "" && (a == "" || a[0] < b[0] || (a[0] == b[0] && Before(a[1..], b[1..])))
  }

  ghost predicate Ascending(names: seq<string>) {
    forall i, j :: 0 <= i < j < |names| ==> Before(names[i], names[j])
  }

  /** A code point in three bytes, the highest first. */
  function CodePoint(c: char): bytes {
    var n := c as int;
    [(n / 65536) as byte, (n / 256 % 256) as byte, (n % 256) as byte]
  }

  function NameKey(name: string): bytes {
    if name == "" then [] else CodePoint(name[0]) + NameKey(name[1..])
  }

  lemma CodePointOrder(c: char, d: char, x: bytes, y: bytes)
    ensures Sorting.Less(CodePoint(c) + x, CodePoint(d) + y) <==> c < d || (c == d && Sorting.Less(x, y))
  {
    var a, b := CodePoint(c) + x, CodePoint(d) + y;
    var a', b' := a[1..], b[1..];
    var a'', b'' := a'[1..], b'[1..];
    assert a''[1..] == x && b''[1..] == y;
    assert Sorting.Less(a'', b'') <==> a''[0] < b''[0] || (a''[0] == b''[0] && Sorting.Less(x, y));
    assert Sorting.Less(a', b') <==> a'[0] < b'[0] || (a'[0] == b'[0] && Sorting.Less(a'', b''));
    Digits(d as int, c as int);
    Digits(c as int, d as int);
  }

  lemma Digits(m: nat, n: nat)
    ensures m < n <==> m / 65536 < n / 65536
                       || (m / 65536 == n / 65536
                           && (m / 256 % 256 < n / 256 % 256
                               || (m / 256 % 256 == n / 256 % 256 && m % 256 < n % 256)))
  {
    assert m == m / 65536 * 65536 + m / 256 % 256 * 256 + m % 256;
    assert n == n / 65536 * 65536 + n / 256 % 256 * 256 + n % 256;
  }

  lemma {:induction false} BeforeIsLess(a: string, b: string)
    ensures Before(a, b) <==> Sorting.Less(NameKey(a), NameKey(b))
  {
    if a != "" && b != "" {
      BeforeIsLess(a[1..], b[1..]);
      CodePointOrder(a[0], b[0], NameKey(a[1..]), NameKey(b[1..]));
    }
  }

  lemma BeforeTransitive(a: string, b: string, c: string)
    requires Before(a, b) && Before(b, c)
    ensures Before(a, c)
  {
    BeforeIsLess(a, b);
    BeforeIsLess(b, c);
    BeforeIsLess(a, c);
    Sorting.LessTransitive(NameKey(a), NameKey(b), NameKey(c));
  }

  lemma {:induction false} BeforeTotal(a: string, b: string)
    ensures Before(a, b) || Before(b, a) || a == b
    ensures !(Before(a, b) && Before(b, a)) && !Before(a, a)
  {
    BeforeIsLess(a, b);
    BeforeIsLess(b, a);
    BeforeIsLess(a, a);
    Sorting.LessTotal(NameKey(a), NameKey(b));
    if NameKey(a) == NameKey(b) {
      SameKey(a, b);
    }
  }

  lemma {:induction false} SameKey(a: string, b: string)
    requires NameKey(a) == NameKey(b)
    ensures a == b
  {
    if a != "" && b != "" {
      var x, y := NameKey(a), NameKey(b);
      assert x[3..] == NameKey(a[1..]) && y[3..] == NameKey(b[1..]);
      assert CodePoint(a[0]) == x[..3] == y[..3] == CodePoint(b[0]);
      Digits(a[0] as int, b[0] as int);
      Digits(b[0] as int, a[0] as int);
      SameKey(a[1..], b[1..]);
      assert a == [a[0]] + a[1..] && b == [b[0]] + b[1..];
    }
  }

  lemma SortedAscends(names: seq<string>)
    ensures Sorting.Sorted(NameKey, names) <==> Ascending(names)
  {
    forall i, j | 0 <= i < j < |names|
      ensures Before(names[i], names[j]) <==> Sorting.Less(NameKey(names[i]), NameKey(names[j]))
    {
      BeforeIsLess(names[i], names[j]);
    }
  }

  /** sorted: the names of a directory come in any order. */
  method SortNames(names: set<string>) returns (order: seq<string>)
    ensures Ascending(order) && forall name :: name in order <==> name in names
  {
    order := [];
    var left := names;
    while left != {}
      invariant left <= names && Sorting.Sorted(NameKey, order)
      invariant forall name :: name in order <==> name in names && name !in left
      decreases left
    {
      var name :| name in left;
      left := left - {name};
      forall y | y in order
        ensures NameKey(y) != NameKey(name)
      {
        if NameKey(y) == NameKey(name) {
          SameKey(y, name);
        }
      }
      Sorting.InsertSorts(NameKey, name, order);
      Sorting.InsertKeeps(NameKey, name, order);
      order := Sorting.Insert(NameKey, name, order);
    }
    SortedAscends(order);
  }
}
