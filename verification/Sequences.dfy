/** Recent history, as the bounded buffers keep it. */
module Sequences {
  /** The last n elements, or all of them when there are fewer. */
  function Last<T>(n: nat, s: seq<T>): seq<T> {
    if |s| <= n then s else s[|s| - n..]
  }

  /** Keeping the last n as elements come is keeping the last n of all of them. */
  lemma LastSnoc<T>(n: nat, s: seq<T>, x: T)
    requires n > 0
    ensures Last(n, s + [x]) == Last(n, Last(n, s) + [x])
    ensures s != [] ==> Last(n, s) != [] && Last(n, s)[|Last(n, s)| - 1] == s[|s| - 1]
  {
    if |s| > n {
      var k := |s| - n;
      assert (s + [x])[k + 1..] == (s[k..] + [x])[1..];
    }
  }

  /** chosen are exactly the elements that are kept, in their order and as often as they come. */
  predicate Picks<T(==)>(s: seq<T>, chosen: seq<T>, keep: T -> bool) {
    if s == [] then chosen == []
    else if keep(s[0]) then chosen != [] && chosen[0] == s[0] && Picks(s[1..], chosen[1..], keep)
    else Picks(s[1..], chosen, keep)
  }

  lemma {:induction false} PicksSnoc<T>(s: seq<T>, chosen: seq<T>, keep: T -> bool, x: T)
    requires Picks(s, chosen, keep)
    ensures Picks(s + [x], if keep(x) then chosen + [x] else chosen, keep)
    decreases |s|
  {
    if s == [] {
      assert s + [x] == [x] && chosen + [x] == [x];
      assert [x][1..] == [];
    } else {
      assert (s + [x])[1..] == s[1..] + [x];
      if keep(s[0]) {
        assert (chosen + [x])[1..] == chosen[1..] + [x];
        PicksSnoc(s[1..], chosen[1..], keep, x);
      } else {
        PicksSnoc(s[1..], chosen, keep, x);
      }
    }
  }

  /** Picking from what was picked; keep is what both keep. */
  lemma {:induction false} PicksTwice<T>(s: seq<T>, some: seq<T>, few: seq<T>, first: T -> bool, second: T -> bool,
                                         keep: T -> bool)
    requires Picks(s, some, first) && Picks(some, few, second)
    requires forall x :: x in s ==> (keep(x) <==> first(x) && second(x))
    ensures Picks(s, few, keep)
    decreases |s|
  {
    if s != [] {
      var tail := s[1..];
      assert forall x :: x in tail ==> x in s;
      assert s[0] in s;
      if !first(s[0]) {
        PicksTwice(tail, some, few, first, second, keep);
      } else if second(s[0]) {
        PicksTwice(tail, some[1..], few[1..], first, second, keep);
      } else {
        PicksTwice(tail, some[1..], few, first, second, keep);
      }
    }
  }

  lemma {:induction false} PicksMeans<T(!new)>(s: seq<T>, chosen: seq<T>, keep: T -> bool)
    requires Picks(s, chosen, keep)
    ensures forall x :: x in chosen <==> x in s && keep(x)
    decreases |s|
  {
    if s != [] {
      PicksMeans(s[1..], if keep(s[0]) then chosen[1..] else chosen, keep);
      assert s == [s[0]] + s[1..];
      assert keep(s[0]) ==> chosen == [chosen[0]] + chosen[1..];
    }
  }

  lemma SubsetSize<T>(a: set<T>, b: set<T>)
    requires a <= b
    ensures |a| <= |b|
  {
    assert b == a + (b - a);
  }
}
