/** Stable sorting by a numeric rank, smallest first. */
module StableSorting {
  ghost predicate Ascending<T>(rank: T -> int, xs: seq<T>) {
    forall i, j :: 0 <= i < j < |xs| ==> rank(xs[i]) <= rank(xs[j])
  }

  /** The same elements in rank order; elements of the same rank in any order. */
  ghost predicate Sorts<T>(rank: T -> int, xs: seq<T>, s: seq<T>) {
    |s| == |xs| && multiset(s) == multiset(xs) && Ascending(rank, s)
  }

  /** Puts x, which comes first, among sorted elements without passing one of the same rank. */
  function Insert<T>(rank: T -> int, x: T, xs: seq<T>): (r: seq<T>)
    ensures |r| == |xs| + 1 && multiset(r) == multiset{x} + multiset(xs)
  {
    if xs == [] || rank(x) <= rank(xs[0]) then [x] + xs
    else assert xs == [xs[0]] + xs[1..]; [xs[0]] + Insert(rank, x, xs[1..])
  }

  lemma {:induction false} InsertAscending<T(!new)>(rank: T -> int, x: T, xs: seq<T>)
    requires Ascending(rank, xs)
    ensures Ascending(rank, Insert(rank, x, xs))
  {
    if xs != [] && rank(x) > rank(xs[0]) {
      InsertAscending(rank, x, xs[1..]);
      var rest := Insert(rank, x, xs[1..]);
      forall j | 0 <= j < |rest| ensures rank(xs[0]) <= rank(rest[j]) {
        assert rest[j] in multiset(rest);
        assert rest[j] == x || rest[j] in xs[1..];
      }
    }
  }

  /** The one stable order. */
  function Sort<T>(rank: T -> int, xs: seq<T>): (r: seq<T>)
    ensures |r| == |xs| && multiset(r) == multiset(xs)
  {
    if xs == [] then []
    else assert xs == [xs[0]] + xs[1..]; Insert(rank, xs[0], Sort(rank, xs[1..]))
  }

  lemma {:induction false} SortSorts<T(!new)>(rank: T -> int, xs: seq<T>)
    ensures Sorts(rank, xs, Sort(rank, xs))
  {
    if xs != [] {
      SortSorts(rank, xs[1..]);
      InsertAscending(rank, xs[0], Sort(rank, xs[1..]));
    }
  }

  /** The elements of one rank, in their order. */
  ghost function OfRank<T>(rank: T -> int, xs: seq<T>, v: int): seq<T> {
    if xs == [] then [] else (if rank(xs[0]) == v then [xs[0]] else []) + OfRank(rank, xs[1..], v)
  }

  lemma OfRankCons<T>(rank: T -> int, x: T, xs: seq<T>, v: int)
    ensures OfRank(rank, [x] + xs, v) == if rank(x) == v then [x] + OfRank(rank, xs, v) else OfRank(rank, xs, v)
  {
    assert ([x] + xs)[1..] == xs;
    assert [] + OfRank(rank, xs, v) == OfRank(rank, xs, v);
  }

  lemma {:induction false} InsertStable<T>(rank: T -> int, x: T, xs: seq<T>, v: int)
    ensures OfRank(rank, Insert(rank, x, xs), v) == OfRank(rank, [x] + xs, v)
  {
    hide OfRank;
    if xs != [] && rank(x) > rank(xs[0]) {
      var y, tail := xs[0], xs[1..];
      assert xs == [y] + tail;
      InsertStable(rank, x, tail, v);
      OfRankCons(rank, x, tail, v);
      OfRankCons(rank, x, xs, v);
      OfRankCons(rank, y, tail, v);
      OfRankCons(rank, y, Insert(rank, x, tail), v);
    }
  }

  /** Elements of one rank stay in the order in which they came. */
  lemma {:induction false} SortStable<T>(rank: T -> int, xs: seq<T>, v: int)
    ensures OfRank(rank, Sort(rank, xs), v) == OfRank(rank, xs, v)
  {
    if xs != [] {
      assert xs == [xs[0]] + xs[1..];
      SortStable(rank, xs[1..], v);
      InsertStable(rank, xs[0], Sort(rank, xs[1..]), v);
      OfRankCons(rank, xs[0], Sort(rank, xs[1..]), v);
      OfRankCons(rank, xs[0], xs[1..], v);
    }
  }
}
