/** Sorting by a byte-string key in lexicographic order, as Python's sorted does with key=. */
module Sorting {
  import opened Bytes

  predicate Less(a: bytes, b: bytes) {
    if b == [] then false
    else if a == [] then true
    else if a[0] != b[0] then a[0] < b[0]
    else Less(a[1..], b[1..])
  }

  lemma {:induction false} LessTransitive(a: bytes, b: bytes, c: bytes)
    requires Less(a, b) && Less(b, c)
    ensures Less(a, c)
  {
    if a != [] && a[0] == b[0] == c[0] {
      LessTransitive(a[1..], b[1..], c[1..]);
    }
  }

  lemma {:induction false} LessTotal(a: bytes, b: bytes)
    ensures !(Less(a, b) && Less(b, a))
    ensures Less(a, b) || Less(b, a) || a == b
    ensures !Less(a, a)
  {
    if a != [] {
      LessTotal(a[1..], a[1..]);
    }
    if a != [] && b != [] && a[0] == b[0] {
      LessTotal(a[1..], b[1..]);
      assert a == [a[0]] + a[1..] && b == [b[0]] + b[1..];
    }
  }

  /** Strictly increasing keys. */
  ghost predicate Sorted<T>(key: T -> bytes, xs: seq<T>) {
    forall i, j :: 0 <= i < j < |xs| ==> Less(key(xs[i]), key(xs[j]))
  }

  ghost predicate IsSortOf<T(!new)>(key: T -> bytes, xs: seq<T>, all: set<T>) {
    Sorted(key, xs) && forall x :: x in xs <==> x in all
  }

  ghost predicate DistinctKeys<T>(key: T -> bytes, all: set<T>) {
    forall x, y :: x in all && y in all && key(x) == key(y) ==> x == y
  }

  /** Inserts an element before the first one with a larger key. */
  function Insert<T>(key: T -> bytes, x: T, xs: seq<T>): seq<T> {
    if xs == [] || Less(key(x), key(xs[0])) then [x] + xs else [xs[0]] + Insert(key, x, xs[1..])
  }

  lemma {:induction false} InsertKeeps<T(!new)>(key: T -> bytes, x: T, xs: seq<T>)
    ensures forall y :: y in Insert(key, x, xs) <==> y == x || y in xs
  {
    if xs != [] && !Less(key(x), key(xs[0])) {
      InsertKeeps(key, x, xs[1..]);
      assert xs == [xs[0]] + xs[1..];
    }
  }

  lemma {:induction false} InsertSorts<T(!new)>(key: T -> bytes, x: T, xs: seq<T>)
    requires Sorted(key, xs) && forall y :: y in xs ==> key(y) != key(x)
    ensures Sorted(key, Insert(key, x, xs))
  {
    if xs == [] {
    } else if Less(key(x), key(xs[0])) {
      forall j | 0 < j < |xs| ensures Less(key(x), key(xs[j])) {
        LessTransitive(key(x), key(xs[0]), key(xs[j]));
      }
    } else {
      var tail := xs[1..];
      InsertSorts(key, x, tail);
      LessTotal(key(x), key(xs[0]));
      var t := Insert(key, x, tail);
      forall j | 0 <= j < |t| ensures Less(key(xs[0]), key(t[j])) {
        InsertKeeps(key, x, tail);
        assert t[j] in t;
        if t[j] != x {
          assert t[j] in tail;
          var k :| 0 <= k < |tail| && tail[k] == t[j];
          assert xs[k + 1] == t[j];
        }
      }
    }
  }

  lemma {:induction false} SortExists<T(!new)>(key: T -> bytes, all: set<T>) returns (xs: seq<T>)
    requires DistinctKeys(key, all)
    ensures IsSortOf(key, xs, all)
    decreases |all|
  {
    if all == {} {
      xs := [];
    } else {
      var x :| x in all;
      xs := SortExists(key, all - {x});
      InsertSorts(key, x, xs);
      InsertKeeps(key, x, xs);
      xs := Insert(key, x, xs);
    }
  }

  /** There is only one way to sort elements with distinct keys, in whatever order they come. */
  lemma {:induction false} SortUnique<T(!new)>(key: T -> bytes, xs: seq<T>, ys: seq<T>)
    requires Sorted(key, xs) && Sorted(key, ys) && forall x :: x in xs <==> x in ys
    ensures xs == ys
  {
    assert ys != [] ==> ys[0] in xs;
    assert xs != [] ==> xs[0] in ys;
    if xs != [] {
      var i :| 0 <= i < |ys| && ys[i] == xs[0];
      var j :| 0 <= j < |xs| && xs[j] == ys[0];
      LessTotal(key(xs[0]), key(ys[0]));
      assert i == 0 && j == 0;
      TailElements(key, xs);
      TailElements(key, ys);
      SortUnique(key, xs[1..], ys[1..]);
      assert xs == [xs[0]] + xs[1..] && ys == [ys[0]] + ys[1..];
    }
  }

  lemma TailElements<T(!new)>(key: T -> bytes, xs: seq<T>)
    requires Sorted(key, xs) && xs != []
    ensures forall x :: x in xs[1..] <==> x in xs && x != xs[0]
  {
    assert xs == [xs[0]] + xs[1..];
    LessTotal(key(xs[0]), key(xs[0]));
  }

  ghost function Sort<T(!new)>(key: T -> bytes, all: set<T>): (xs: seq<T>)
    requires DistinctKeys(key, all)
    ensures IsSortOf(key, xs, all)
  {
    SortPossible(key, all);
    var xs :| IsSortOf(key, xs, all); xs
  }

  lemma SortPossible<T(!new)>(key: T -> bytes, all: set<T>)
    requires DistinctKeys(key, all)
    ensures exists xs :: IsSortOf(key, xs, all)
  {
    var xs := SortExists(key, all);
  }
}
