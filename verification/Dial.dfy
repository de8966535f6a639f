/**
 Dialing a host at its vetted addresses, the time left shared among the
 attempts still to be made. Times and durations are whole nanoseconds.
 */
module Dial {
  import opened Options
  import opened Sequences

  /** Go's integer division truncates toward zero. */
  function Quotient(a: int, b: int): int
    requires b > 0
  {
    if a >= 0 then a / b else -((-a) / b)
  }

  /** The deadline asked for attempt i of n when it starts at `start`. */
  function Asked(deadline: int, start: int, n: nat, i: nat): int
    requires i < n
  {
    deadline + Quotient(-(deadline - start) * (n - 1 - i), n - i)
  }

  /** A derived context never outlives its parent. */
  function AttemptDeadline(deadline: int, start: int, n: nat, i: nat): int
    requires i < n
  {
    if Asked(deadline, start, n, i) < deadline then Asked(deadline, start, n, i) else deadline
  }

  // ------------------------------------------------------------- fair share

  /**
   starts[i] is when attempt i starts: the clock does not run backwards and
   every attempt but the last is over by its own deadline.
   */
  ghost predicate Schedule(deadline: int, n: nat, starts: seq<int>) {
    && |starts| == n > 0 && starts[0] <= deadline
    && forall i :: 0 <= i < n - 1 ==> starts[i] <= starts[i + 1] <= AttemptDeadline(deadline, starts[i], n, i)
  }

  lemma MulOrder(n: int, a: int, b: int)
    requires n > 0
    ensures n * a < n * b <==> a < b
  {
    assert n * (b - a) == n * b - n * a;
  }

  lemma QuotientBetween(x: int, n: int, low: int, high: int)
    requires n > 0 && n * low <= x <= n * high
    ensures low <= x / n <= high
  {
    var d := x / n;
    assert n * d <= x < n * d + n == n * (d + 1);
    MulOrder(n, low, d + 1);
    MulOrder(n, high, d);
  }

  lemma Expand(n: int, q: int, r: int)
    ensures (n * q + r) * (n - 1) == n * (q * (n - 1)) + r * (n - 1)
    ensures (n * q + r) * (n - 1) == n * (n * q + r - q) - r
  {
    assert (n * q) * (n - 1) == n * (q * (n - 1));
    assert (n * q + r) * (n - 1) == n * (n * q + r) - (n * q + r);
    assert n * (n * q + r - q) == n * (n * q + r) - n * q;
  }

  lemma TimesNonneg(a: int, b: int)
    requires a >= 0 && b >= 0
    ensures a * b >= 0
  {
  }

  /** The share of left = n * q + r lies between the two bounds, before dividing by n. */
  lemma ShareTimes(left: int, n: int, q: int)
    requires n >= 2 && left >= n * q
    ensures n * (q * (n - 1)) <= left * (n - 1) <= n * (left - q)
  {
    var r := left - n * q;
    Expand(n, q, r);
    TimesNonneg(r, n - 1);
    assert left == n * q + r;
  }

  lemma ShareRounds(left: int, n: int, q: int)
    requires n >= 2 && left >= n * q && q >= 0
    ensures q * (n - 1) <= (left * (n - 1)) / n <= left - q
    ensures left * (n - 1) >= 0 && left >= 0
  {
    ShareTimes(left, n, q);
    QuotientBetween(left * (n - 1), n, q * (n - 1), left - q);
    TimesNonneg(n, q);
    TimesNonneg(left, n - 1);
  }

  /** What an attempt starting in time gets, and what is left for the others. */
  lemma ShareOfOne(deadline: int, start: int, n: nat, i: nat, q: int)
    requires i < n && q >= 0 && deadline - start >= (n - i) * q
    ensures var end := AttemptDeadline(deadline, start, n, i);
            end - start >= q && end <= deadline && deadline - end >= (n - 1 - i) * q
    ensures i == n - 1 ==> AttemptDeadline(deadline, start, n, i) == deadline
  {
    var left := deadline - start;
    if i < n - 1 {
      ShareRounds(left, n - i, q);
      assert -left * (n - 1 - i) == -(left * (n - 1 - i));
      assert left * (n - 1 - i) >= 0;
    }
  }

  /** With R left when dialing starts, every attempt still has R / n when its turn comes. */
  lemma {:induction false} FairShare(deadline: int, n: nat, starts: seq<int>, i: nat)
    requires Schedule(deadline, n, starts) && i < n
    ensures var q := (deadline - starts[0]) / n;
            var end := AttemptDeadline(deadline, starts[i], n, i);
            && end - starts[i] >= q
            && end <= deadline
            && (i == n - 1 ==> end == deadline)
  {
    var q := (deadline - starts[0]) / n;
    EnoughLeft(deadline, n, starts, i, q);
    ShareOfOne(deadline, starts[i], n, i, q);
  }

  lemma {:induction false} EnoughLeft(deadline: int, n: nat, starts: seq<int>, i: nat, q: int)
    requires Schedule(deadline, n, starts) && i < n && q == (deadline - starts[0]) / n
    ensures q >= 0 && deadline - starts[i] >= (n - i) * q
  {
    if i == 0 {
      assert n * ((deadline - starts[0]) / n) <= deadline - starts[0];
    } else {
      EnoughLeft(deadline, n, starts, i - 1, q);
      ShareOfOne(deadline, starts[i - 1], n, i - 1, q);
      assert n - i == n - 1 - (i - 1);
    }
  }

  lemma RoundedUp(left: int, k: int)
    requires left >= 0 && k >= 1
    ensures var share := left - left * (k - 1) / k; k * (share - 1) < left <= k * share
  {
    var x := left * (k - 1);
    var q := x / k;
    assert k * q <= x < k * q + k;
    Distributed(left, k, q);
  }

  lemma Distributed(left: int, k: int, q: int)
    ensures left * (k - 1) == k * left - left
    ensures k * (left - q) == k * left - k * q && k * (left - q - 1) == k * left - k * q - k
  {
  }

  /** What an attempt gets is what is left, divided by the attempts still to be made and rounded up. */
  lemma ShareExact(deadline: int, start: int, n: nat, i: nat)
    requires i < n
    ensures var share := AttemptDeadline(deadline, start, n, i) - start;
            start <= deadline ==> (n - i) * (share - 1) < deadline - start <= (n - i) * share
    ensures start > deadline ==> AttemptDeadline(deadline, start, n, i) == deadline
  {
    var left, k := deadline - start, n - i;
    if left >= 0 {
      TimesNonneg(left, k - 1);
      assert -left * (k - 1) == -(left * (k - 1));
      var q := left * (k - 1) / k;
      assert q >= 0 && AttemptDeadline(deadline, start, n, i) == deadline - q;
      RoundedUp(left, k);
    } else {
      TimesNonneg(-left, k - 1);
      assert -left * (k - 1) >= 0;
    }
  }

  // ------------------------------------------------------------ the dialing

  datatype Error = LookupFailed | NonPublic | NoAddresses | DialFailed(attempt: nat)

  datatype Outcome = Connected(attempt: nat) | Failed(error: Error)

  /** One dial made: to which address, and until when. */
  datatype Attempt<Ip> = Attempt(ip: Ip, until: int)

  function Vetted<Ip>(ips: seq<Ip>, isPublic: Ip -> bool): seq<Ip> {
    if ips == [] then []
    else Vetted(ips[..|ips| - 1], isPublic) + if isPublic(ips[|ips| - 1]) then [ips[|ips| - 1]] else []
  }

  lemma {:induction false} VettedPicks<Ip>(ips: seq<Ip>, isPublic: Ip -> bool)
    ensures Picks(ips, Vetted(ips, isPublic), isPublic)
  {
    if ips != [] {
      var init, last := ips[..|ips| - 1], ips[|ips| - 1];
      assert ips == init + [last];
      VettedPicks(init, isPublic);
      var before := Vetted(init, isPublic);
      PicksSnoc(init, before, isPublic, last);
      assert Vetted(ips, isPublic) == if isPublic(last) then before + [last] else before;
    }
  }

  /**
   Dials the addresses a name resolved to (None when the lookup failed).
   starts(i) is the clock when attempt i begins, succeeds(ip, until) whether
   the address answers before its deadline.
   */
  method DialPinned<Ip>(resolved: Option<seq<Ip>>, isPublic: Ip -> bool, requirePublic: bool, deadline: int,
                        starts: nat -> int, succeeds: (Ip, int) -> bool)
    returns (outcome: Outcome, made: seq<Attempt<Ip>>)
    ensures resolved.None? ==> outcome == Failed(LookupFailed) && made == []
    ensures resolved.Some? ==>
              var targets := if requirePublic then Vetted(resolved.value, isPublic) else resolved.value;
              && |made| <= |targets|
              && (forall i :: 0 <= i < |made| ==>
                    made[i] == Attempt(targets[i], AttemptDeadline(deadline, starts(i), |targets|, i)))
              && (forall i :: 0 <= i < |made| - 1 ==> !succeeds(made[i].ip, made[i].until))
              && (outcome.Connected? ==>
                    |made| == outcome.attempt + 1 && succeeds(made[|made| - 1].ip, made[|made| - 1].until))
              && (outcome.Failed? ==>
                    |made| == |targets| && forall i :: 0 <= i < |made| ==> !succeeds(made[i].ip, made[i].until))
              && (targets == [] ==> outcome == Failed(if requirePublic then NonPublic else NoAddresses))
              && (outcome.Failed? && targets != [] ==> outcome.error == DialFailed(|targets| - 1))
    ensures requirePublic ==> forall i :: 0 <= i < |made| ==> isPublic(made[i].ip)
    ensures requirePublic && resolved.Some? ==>
              Picks(resolved.value, Vetted(resolved.value, isPublic), isPublic)
  {
    made := [];
    hide Picks, AttemptDeadline;
    if resolved.Some? {
      VettedPicks(resolved.value, isPublic);
    }
    if resolved.None? {
      return Failed(LookupFailed), [];
    }
    var ips := resolved.value;
    var vetted := ips;
    if requirePublic {
      vetted := [];
      for i := 0 to |ips|
        invariant vetted == Vetted(ips[..i], isPublic)
        invariant forall k :: 0 <= k < |vetted| ==> isPublic(vetted[k])
      {
        assert ips[..i + 1][..i] == ips[..i];
        if isPublic(ips[i]) {
          vetted := vetted + [ips[i]];
        }
      }
      assert ips[..|ips|] == ips;
      if |vetted| == 0 {
        return Failed(NonPublic), [];
      }
    }
    if |vetted| == 0 {
      return Failed(NoAddresses), [];
    }
    outcome := Failed(NoAddresses);
    for i := 0 to |vetted|
      invariant |made| == i
      invariant outcome == Failed(if i == 0 then NoAddresses else DialFailed(i - 1))
      invariant forall k :: 0 <= k < i ==>
                  && made[k] == Attempt(vetted[k], AttemptDeadline(deadline, starts(k), |vetted|, k))
                  && !succeeds(made[k].ip, made[k].until)
    {
      var until := AttemptDeadline(deadline, starts(i), |vetted|, i);
      made := made + [Attempt(vetted[i], until)];
      if succeeds(vetted[i], until) {
        return Connected(i), made;
      }
      outcome := Failed(DialFailed(i));
    }
  }
}
