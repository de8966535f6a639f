/**
 The egress gateway's bounded note of which names resolved to an address. It
 stands in for the unbounded log of every resolution. Times are nanoseconds of
 a clock that does not run backwards.
 */
module DnsCache {
  import opened Options
  import opened StableSorting

  const HOUR: nat := 3_600_000_000_000
  const MIN_TTL: nat := 6 * HOUR
  const MAX_NAMES: nat := 16
  const MAX_IPS: nat := 65536

  /** An address, as the text the table is keyed by. */
  datatype Ip = Ip(text: string)

  datatype Entry = Entry(name: string, seen: nat, expires: nat)

  type Table = map<Ip, seq<Entry>>

  /** Sorting by this rank puts the most recently seen first. */
  function Age(e: Entry): int {
    -(e.seen as int)
  }

  // ------------------------------------------------------------------ steps

  function Live(es: seq<Entry>, now: nat): (r: seq<Entry>) {
    if es == [] then []
    else if es[|es| - 1].expires > now then Live(es[..|es| - 1], now) + [es[|es| - 1]]
    else Live(es[..|es| - 1], now)
  }

  function Entries(t: Table, key: Ip): seq<Entry> {
    if key in t then t[key] else []
  }

  function FindName(es: seq<Entry>, name: string): (i: nat)
    ensures i <= |es|
    ensures forall k :: 0 <= k < i ==> es[k].name != name
    ensures i < |es| ==> es[i].name == name
  {
    if es == [] then 0
    else if es[0].name == name then 0
    else 1 + FindName(es[1..], name)
  }

  function Refreshed(e: Entry, now: nat, ttl: nat): Entry {
    e.(seen := now, expires := if now + ttl > e.expires then now + ttl else e.expires)
  }

  /** Room for one more name: nothing changes below the cap, else all but the 15 newest go. */
  ghost predicate Trimmed(es: seq<Entry>, kept: seq<Entry>) {
    if |es| < MAX_NAMES then kept == es
    else exists s :: Sorts(Age, es, s) && kept == s[..MAX_NAMES - 1]
  }

  /** When an address was last seen under any of these names. */
  function Latest(es: seq<Entry>): nat {
    if es == [] then 0
    else if es[|es| - 1].seen > Latest(es[..|es| - 1]) then es[|es| - 1].seen
    else Latest(es[..|es| - 1])
  }

  function LiveTable(t: Table, now: nat): Table {
    map key | key in t && Live(t[key], now) != [] :: Live(t[key], now)
  }

  /** Expired entries go, then the oldest addresses until half the cap is left. */
  ghost predicate Pruned(t: Table, now: nat, r: Table) {
    var live := LiveTable(t, now);
    exists dropped: set<Ip> :: PrunedBy(live, dropped, r)
  }

  ghost predicate PrunedBy(live: Table, dropped: set<Ip>, r: Table) {
    && dropped <= live.Keys && r == live - dropped
    && |dropped| == (if |live| > MAX_IPS / 2 then |live| - MAX_IPS / 2 else 0)
    && forall d, k :: d in dropped && k in r ==> Latest(live[d]) <= Latest(live[k])
  }

  /** However short the record's own time to live is, it is remembered this long. */
  function Floored(ttl: int): nat {
    if ttl < MIN_TTL then MIN_TTL else ttl
  }

  ghost predicate NeedsPrune(t: Table, key: Ip) {
    key !in t && |t| >= MAX_IPS
  }

  ghost predicate NeedsTrim(t: Table, key: Ip, name: string) {
    FindName(Entries(t, key), name) == |Entries(t, key)| >= MAX_NAMES
  }

  ghost predicate Recorded(t: Table, key: Ip, name: string, ttl: nat, now: nat, t': Table) {
    var es := Entries(t, key);
    var i := FindName(es, name);
    if i < |es| then t' == t[key := es[i := Refreshed(es[i], now, ttl)]]
    else exists kept, r :: Inserted(t, key, name, ttl, now, t', kept, r)
  }

  ghost predicate Inserted(t: Table, key: Ip, name: string, ttl: nat, now: nat, t': Table,
                           kept: seq<Entry>, r: Table) {
    && Trimmed(Entries(t, key), kept)
    && (if NeedsPrune(t, key) then Pruned(t, now, r) else r == t)
    && t' == r[key := kept + [Entry(name, now, now + ttl)]]
  }

  function NameList(es: seq<Entry>): seq<string> {
    seq(|es|, i requires 0 <= i < |es| => es[i].name)
  }

  /** The answer of Names. */
  function NamesOf(t: Table, key: Ip, now: nat): seq<string> {
    NameList(Sort(Age, Live(Entries(t, key), now)))
  }

  /** Names forgets an address whose names have all expired. */
  function AfterNames(t: Table, key: Ip, now: nat): Table {
    if Live(Entries(t, key), now) == [] then t - {key} else t
  }

  // ------------------------------------------------- pruning the oldest ones

  datatype Aged = Aged(key: Ip, seen: nat)

  function KeysOf(ages: seq<Aged>): set<Ip> {
    set a | a in ages :: a.key
  }

  lemma {:induction false} KeysAtMost(ages: seq<Aged>)
    ensures |KeysOf(ages)| <= |ages|
  {
    if ages != [] {
      var init, last := ages[..|ages| - 1], ages[|ages| - 1];
      KeysAtMost(init);
      KeysAppend(init, [last]);
      assert KeysOf([last]) == {last.key};
      assert ages == init + [last];
    }
  }

  lemma KeysAppend(a: seq<Aged>, b: seq<Aged>)
    ensures KeysOf(a + b) == KeysOf(a) + KeysOf(b)
  {
  }

  lemma KeysOfPrefix(ages: seq<Aged>, n: nat)
    requires n <= |ages| && |KeysOf(ages)| == |ages|
    ensures |KeysOf(ages[..n])| == n && KeysOf(ages[..n]) !! KeysOf(ages[n..])
  {
    var a, b := KeysOf(ages[..n]), KeysOf(ages[n..]);
    KeysAtMost(ages[..n]);
    KeysAtMost(ages[n..]);
    assert ages == ages[..n] + ages[n..];
    KeysAppend(ages[..n], ages[n..]);
    assert |a * b| == 0;
    assert a * b == {};
    assert forall k :: k in a && k in b ==> k in a * b;
  }

  function SeenRank(a: Aged): int {
    a.seen
  }

  lemma {:induction false} LiveSnoc(es: seq<Entry>, i: nat, now: nat)
    requires i < |es|
    ensures Live(es[..i + 1], now) == Live(es[..i], now) + if es[i].expires > now then [es[i]] else []
  {
    assert es[..i + 1][..i] == es[..i];
  }

  /** Keeps the unexpired entries and notes the newest time any of them was seen. */
  method Filter(es: seq<Entry>, now: nat) returns (live: seq<Entry>, latest: nat)
    ensures live == Live(es, now) && latest == Latest(live)
  {
    live, latest := [], 0;
    for i := 0 to |es|
      invariant live == Live(es[..i], now) && latest == Latest(live)
    {
      LiveSnoc(es, i, now);
      if es[i].expires > now {
        assert (live + [es[i]])[..|live|] == live;
        live := live + [es[i]];
        if es[i].seen > latest {
          latest := es[i].seen;
        }
      }
    }
    assert es[..|es|] == es;
  }

  /** Where the search loop of Record stops. */
  method Search(es: seq<Entry>, name: string) returns (i: nat)
    ensures i == FindName(es, name)
  {
    i := 0;
    while i < |es|
      invariant i <= |es|
      invariant FindName(es, name) == i + FindName(es[i..], name)
    {
      if es[i].name == name {
        return;
      }
      i := i + 1;
    }
  }

  method Trim(es: seq<Entry>) returns (kept: seq<Entry>)
    ensures Trimmed(es, kept)
  {
    if |es| < MAX_NAMES {
      return es;
    }
    SortSorts(Age, es);
    return Sort(Age, es)[..MAX_NAMES - 1];
  }

  // -------------------------------------------------------------- the class

  class Cache {
    var byIP: Table
    const normalize: string -> string

    constructor (normalize: string -> string)
      ensures byIP == map[] && this.normalize == normalize
    {
      byIP := map[];
      this.normalize := normalize;
    }

    /** Remembers that a name resolved to an address. */
    method Record(raw: string, ip: Option<Ip>, ttl: int, now: nat)
      modifies this
      ensures var name := normalize(raw);
              if name == "" || ip.None? then byIP == old(byIP)
              else Recorded(old(byIP), ip.value, name, Floored(ttl), now, byIP)
    {
      var name := normalize(raw);
      if name == "" || ip.None? {
        return;
      }
      var kept := Floored(ttl);
      var key := ip.value;
      var entries := Entries(byIP, key);
      var i := Search(entries, name);
      if i < |entries| {
        byIP := byIP[key := entries[i := Refreshed(entries[i], now, kept)]];
        return;
      }
      var room := Trim(entries);
      if key !in byIP && |byIP| >= MAX_IPS {
        PruneLocked(now);
      }
      ghost var r := byIP;
      byIP := byIP[key := room + [Entry(name, now, now + kept)]];
      assert Inserted(old(byIP), key, name, kept, now, byIP, room, r);
    }

    /** The unexpired names of an address, most recently resolved first. */
    method Names(ip: Option<Ip>, now: nat) returns (out: seq<string>)
      modifies this
      ensures ip.None? ==> out == [] && byIP == old(byIP)
      ensures ip.Some? ==> out == NamesOf(old(byIP), ip.value, now) && byIP == AfterNames(old(byIP), ip.value, now)
    {
      if ip.None? {
        return [];
      }
      var key := ip.value;
      var live, _ := Filter(Entries(byIP, key), now);
      if |live| == 0 {
        byIP := byIP - {key};
        return [];
      }
      out := NameList(Sort(Age, live));
    }

    /** Drops expired entries and, if needed, the least recently seen addresses. */
    method PruneLocked(now: nat)
      modifies this
      ensures Pruned(old(byIP), now, byIP)
    {
      ghost var live := LiveTable(byIP, now);
      var ages := DropExpired(now);
      assert |live.Keys| == |live|;
      var excess := |byIP| - MAX_IPS / 2;
      if excess > 0 {
        SortSorts(SeenRank, ages);
        var sorted := Sort(SeenRank, ages);
        SameKeys(ages, sorted);
        DropOldest(sorted, excess);
      } else {
        assert live - {} == live;
        assert PrunedBy(live, {}, byIP);
      }
    }

    /** The first loop of pruneLocked; addresses are visited in any order. */
    method DropExpired(now: nat) returns (ages: seq<Aged>)
      modifies this
      ensures byIP == LiveTable(old(byIP), now)
      ensures AgesOf(byIP, byIP.Keys, ages)
    {
      var todo := byIP.Keys;
      ages := [];
      ghost var all := byIP;
      PartlyAll(all, now);
      hide Partly, LiveTable, Live, Latest, AgesOf;
      while todo != {}
        invariant todo <= all.Keys
        invariant byIP == Partly(all, todo, now)
        invariant AgesOf(LiveTable(all, now), LiveTable(all, now).Keys - todo, ages)
      {
        var key :| key in todo;
        PartlyAt(all, todo, key, now);
        var kept, latest := Filter(byIP[key], now);
        PartlyStep(all, todo, key, now);
        LiveAt(all, key, now);
        AgesStep(LiveTable(all, now), todo, key, Live(all[key], now), ages);
        todo := todo - {key};
        if |kept| == 0 {
          byIP := byIP - {key};
        } else {
          byIP := byIP[key := kept];
          ages := ages + [Aged(key, latest)];
        }
      }
      PartlyNone(all, now);
      assert byIP.Keys - todo == byIP.Keys;
    }

    method DropOldest(ages: seq<Aged>, excess: nat)
      requires |byIP| > MAX_IPS / 2 && excess == |byIP| - MAX_IPS / 2
      requires Ascending(SeenRank, ages) && AgesOf(byIP, byIP.Keys, ages)
      modifies this
      ensures exists dropped :: PrunedBy(old(byIP), dropped, byIP)
    {
      hide AgesOf, Ascending, PrunedBy, KeysOf;
      ghost var live := byIP;
      OldestDropped(live, ages, excess);
      KeysOfNone(ages);
      for i := 0 to excess
        invariant byIP == live - KeysOf(ages[..i])
      {
        DropOne(live, ages, i);
        byIP := byIP - {ages[i].key};
      }
      assert PrunedBy(live, KeysOf(ages[..excess]), byIP);
    }
  }

  lemma KeysOfNone(ages: seq<Aged>)
    ensures KeysOf(ages[..0]) == {}
  {
  }

  lemma DropOne(live: Table, ages: seq<Aged>, i: nat)
    requires i < |ages|
    ensures live - KeysOf(ages[..i]) - {ages[i].key} == live - KeysOf(ages[..i + 1])
  {
    KeysAppend(ages[..i], [ages[i]]);
    assert ages[..i + 1] == ages[..i] + [ages[i]];
    OneKey(ages[i]);
  }

  lemma OneKey(a: Aged)
    ensures KeysOf([a]) == {a.key}
  {
  }

  /** The ages list has every key once, with the time it was last seen. */
  ghost predicate AgesOf(live: Table, keys: set<Ip>, ages: seq<Aged>) {
    && KeysOf(ages) == keys && |ages| == |keys|
    && forall a :: a in ages ==> a.key in live && a.seen == Latest(live[a.key])
  }

  /** The table when the addresses in todo are still to be visited. */
  function Partly(t: Table, todo: set<Ip>, now: nat): Table {
    map key | key in t && (key in todo || Live(t[key], now) != []) :: if key in todo then t[key] else Live(t[key], now)
  }

  lemma PartlyAll(t: Table, now: nat)
    ensures Partly(t, t.Keys, now) == t
    ensures AgesOf(LiveTable(t, now), LiveTable(t, now).Keys - t.Keys, [])
  {
  }

  lemma PartlyAt(t: Table, todo: set<Ip>, key: Ip, now: nat)
    requires key in todo && todo <= t.Keys
    ensures key in Partly(t, todo, now) && Partly(t, todo, now)[key] == t[key]
  {
  }

  lemma PartlyNone(t: Table, now: nat)
    ensures Partly(t, {}, now) == LiveTable(t, now)
  {
  }

  lemma LiveAt(t: Table, key: Ip, now: nat)
    requires key in t
    ensures var live := LiveTable(t, now);
            if Live(t[key], now) == [] then key !in live else key in live && live[key] == Live(t[key], now)
  {
  }

  lemma PartlyStep(t: Table, todo: set<Ip>, key: Ip, now: nat)
    requires key in todo && todo <= t.Keys
    ensures Partly(t, todo - {key}, now)
         == if Live(t[key], now) == [] then Partly(t, todo, now) - {key}
            else Partly(t, todo, now)[key := Live(t[key], now)]
  {
  }

  lemma AgesStep(live: Table, todo: set<Ip>, key: Ip, es: seq<Entry>, ages: seq<Aged>)
    requires key in todo && AgesOf(live, live.Keys - todo, ages)
    requires if es == [] then key !in live else key in live && live[key] == es
    ensures AgesOf(live, live.Keys - (todo - {key}), if es == [] then ages else ages + [Aged(key, Latest(es))])
  {
    if es == [] {
      assert live.Keys - (todo - {key}) == live.Keys - todo;
    } else {
      AgesSnoc(live, live.Keys - todo, ages, Aged(key, Latest(es)));
      assert live.Keys - (todo - {key}) == (live.Keys - todo) + {key};
    }
  }

  lemma AgesSnoc(live: Table, keys: set<Ip>, ages: seq<Aged>, a: Aged)
    requires AgesOf(live, keys, ages) && a.key !in keys
    requires a.key in live && a.seen == Latest(live[a.key])
    ensures AgesOf(live, keys + {a.key}, ages + [a])
  {
    KeysAppend(ages, [a]);
    assert KeysOf([a]) == {a.key};
  }

  lemma OldestDropped(live: Table, ages: seq<Aged>, excess: nat)
    requires |live| > MAX_IPS / 2 && excess == |live| - MAX_IPS / 2
    requires Ascending(SeenRank, ages) && AgesOf(live, live.Keys, ages)
    ensures excess <= |ages|
    ensures PrunedBy(live, KeysOf(ages[..excess]), live - KeysOf(ages[..excess]))
  {
    assert |live.Keys| == |live|;
    KeysOfPrefix(ages, excess);
    SplitKeys(ages, excess);
    var dropped := KeysOf(ages[..excess]);
    forall d, k | d in dropped && k in live - dropped ensures Latest(live[d]) <= Latest(live[k]) {
      var i := IndexOf(ages, 0, excess, d);
      var j := IndexOf(ages, excess, |ages|, k);
      OlderBefore(live, ages, i, j);
    }
  }

  lemma SplitKeys(ages: seq<Aged>, n: nat)
    requires n <= |ages|
    ensures KeysOf(ages) == KeysOf(ages[..n]) + KeysOf(ages[n..])
    ensures ages[n..] == ages[n..|ages|] && ages[..n] == ages[0..n]
  {
    assert ages == ages[..n] + ages[n..];
    KeysAppend(ages[..n], ages[n..]);
  }

  lemma OlderBefore(live: Table, ages: seq<Aged>, i: nat, j: nat)
    requires i < j < |ages| && Ascending(SeenRank, ages) && AgesOf(live, live.Keys, ages)
    ensures Latest(live[ages[i].key]) <= Latest(live[ages[j].key])
  {
    assert ages[i] in ages && ages[j] in ages;
    assert SeenRank(ages[i]) <= SeenRank(ages[j]);
  }

  lemma IndexOf(ages: seq<Aged>, lo: nat, hi: nat, key: Ip) returns (i: nat)
    requires lo <= hi <= |ages| && key in KeysOf(ages[lo..hi])
    ensures lo <= i < hi && ages[i].key == key
  {
    var a :| a in ages[lo..hi] && a.key == key;
    var k :| 0 <= k < hi - lo && ages[lo..hi][k] == a;
    i := lo + k;
  }

  lemma SameKeys(a: seq<Aged>, b: seq<Aged>)
    requires multiset(a) == multiset(b)
    ensures KeysOf(a) == KeysOf(b)
    ensures forall x :: x in b ==> x in a
  {
    assert forall x :: x in a <==> x in multiset(a);
    assert forall x :: x in b <==> x in multiset(b);
  }
}
