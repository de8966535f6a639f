/** What holds of the name cache after any sequence of operations, compared with the log of all of them. */
module DnsCacheRuns {
  import opened Sequences
  import opened Options
  import opened StableSorting
  import opened DnsCache

  datatype Op = Learned(ip: Ip, name: string, ttl: int, now: nat) | Asked(ip: Ip, now: nat)

  ghost predicate Step(t: Table, op: Op, t': Table) {
    match op
    case Learned(ip, name, ttl, now) => Recorded(t, ip, name, Floored(ttl), now, t')
    case Asked(ip, now) => t' == AfterNames(t, ip, now)
  }

  /** ts[i] is the table before ops[i]; the clock does not run backwards. */
  ghost predicate Run(ts: seq<Table>, ops: seq<Op>) {
    && |ts| == |ops| + 1 && ts[0] == map[]
    && (forall i :: 0 <= i < |ops| ==> Step(ts[i], ops[i], ts[i + 1]))
    && (forall i, j :: 0 <= i < j < |ops| ==> ops[i].now <= ops[j].now)
  }

  function Now(ops: seq<Op>): nat {
    if ops == [] then 0 else ops[|ops| - 1].now
  }

  // ---------------------------------------------------------------- the log

  predicate About(op: Op, ip: Ip, name: string) {
    op.Learned? && op.ip == ip && op.name == name
  }

  /** When the log last saw a name resolve to an address. */
  function LogSeen(ops: seq<Op>, ip: Ip, name: string): Option<nat> {
    if ops == [] then None
    else if About(ops[|ops| - 1], ip, name) then Some(ops[|ops| - 1].now)
    else LogSeen(ops[..|ops| - 1], ip, name)
  }

  /** Until when the log would remember it: the latest expiry of any of its records. */
  function LogExpires(ops: seq<Op>, ip: Ip, name: string): nat {
    if ops == [] then 0
    else
      var before, op := LogExpires(ops[..|ops| - 1], ip, name), ops[|ops| - 1];
      if About(op, ip, name) && op.now + Floored(op.ttl) > before then op.now + Floored(op.ttl) else before
  }

  // -------------------------------------------------------------- invariant

  ghost predicate DistinctNames(es: seq<Entry>) {
    forall i, j :: 0 <= i < j < |es| ==> es[i].name != es[j].name
  }

  ghost predicate Backed(e: Entry, ops: seq<Op>, ip: Ip) {
    LogSeen(ops, ip, e.name) == Some(e.seen) && e.expires <= LogExpires(ops, ip, e.name)
  }

  ghost predicate EntriesOk(es: seq<Entry>, ops: seq<Op>, ip: Ip) {
    && 1 <= |es| <= 16 && DistinctNames(es)
    && forall e :: e in es ==> Backed(e, ops, ip)
  }

  ghost predicate Inv(t: Table, ops: seq<Op>) {
    && |t| <= 65536
    && forall ip :: ip in t ==> EntriesOk(t[ip], ops, ip)
  }

  // ----------------------------------------------------- entries of one name

  lemma {:induction false} LivePart(es: seq<Entry>, now: nat)
    ensures |Live(es, now)| <= |es|
    ensures forall e :: e in Live(es, now) <==> e in es && e.expires > now
    ensures DistinctNames(es) ==> DistinctNames(Live(es, now))
  {
    if es != [] {
      var init, last := es[..|es| - 1], es[|es| - 1];
      LivePart(init, now);
      assert es == init + [last];
      if DistinctNames(es) {
        forall i | 0 <= i < |Live(init, now)| ensures Live(init, now)[i].name != last.name {
          assert Live(init, now)[i] in Live(init, now);
          assert Live(init, now)[i] in init;
        }
      }
    }
  }

  lemma {:induction false} CountOnce(es: seq<Entry>, e: Entry)
    requires DistinctNames(es)
    ensures multiset(es)[e] <= 1
  {
    if es != [] {
      var init, last := es[..|es| - 1], es[|es| - 1];
      CountOnce(init, e);
      assert es == init + [last];
      if last == e {
        assert e !in init;
      }
    }
  }

  lemma {:induction false} CountTwice(s: seq<Entry>, i: nat, j: nat)
    requires i < j < |s| && s[i] == s[j]
    ensures multiset(s)[s[i]] >= 2
  {
    assert s == s[..j] + [s[j]] + s[j + 1..];
    assert s[i] in s[..j];
  }

  /** Sorting keeps names distinct. */
  lemma PermutationDistinct(es: seq<Entry>, s: seq<Entry>)
    requires DistinctNames(es) && multiset(s) == multiset(es)
    ensures DistinctNames(s)
    ensures forall e :: e in s <==> e in es
  {
    assert forall e :: e in s <==> e in multiset(s);
    assert forall e :: e in es <==> e in multiset(es);
    forall i, j | 0 <= i < j < |s| ensures s[i].name != s[j].name {
      if s[i].name == s[j].name {
        assert s[i] in es && s[j] in es;
        CountTwice(s, i, j);
        CountOnce(es, s[i]);
      }
    }
  }

  lemma TrimKeeps(es: seq<Entry>, kept: seq<Entry>)
    requires DistinctNames(es) && |es| <= MAX_NAMES && Trimmed(es, kept)
    ensures DistinctNames(kept) && |kept| < MAX_NAMES
    ensures forall e :: e in kept ==> e in es
  {
    if |es| == MAX_NAMES {
      var s :| Sorts(Age, es, s) && kept == s[..MAX_NAMES - 1];
      PermutationDistinct(es, s);
    }
  }

  /** A name dropped by the per-address cap was last seen no later than every name that is kept. */
  lemma EvictedOldest(es: seq<Entry>, kept: seq<Entry>, e: Entry, k: Entry)
    requires Trimmed(es, kept) && e in es && e !in kept && k in kept
    ensures e.seen <= k.seen
    ensures |es| >= 16 && |kept| == 15
  {
    var s :| Sorts(Age, es, s) && kept == s[..MAX_NAMES - 1];
    assert e in multiset(s);
    var i :| 0 <= i < |s| && s[i] == e;
    var j :| 0 <= j < |kept| && kept[j] == k;
    assert s[j] == k;
    assert forall m :: 0 <= m < |kept| ==> kept[m] == s[m] && kept[m] in kept;
    assert Age(s[j]) <= Age(s[i]);
  }

  // ----------------------------------------------------- one step keeps it

  lemma LogExtends(ops: seq<Op>, op: Op, ip: Ip, name: string)
    ensures LogExpires(ops + [op], ip, name) >= LogExpires(ops, ip, name)
    ensures !About(op, ip, name) ==>
              LogSeen(ops + [op], ip, name) == LogSeen(ops, ip, name)
              && LogExpires(ops + [op], ip, name) == LogExpires(ops, ip, name)
    ensures About(op, ip, name) ==>
              LogSeen(ops + [op], ip, name) == Some(op.now)
              && LogExpires(ops + [op], ip, name) >= op.now + Floored(op.ttl)
  {
    assert (ops + [op])[..|ops|] == ops;
  }

  lemma StillBacked(es: seq<Entry>, ops: seq<Op>, op: Op, ip: Ip)
    requires forall e :: e in es ==> Backed(e, ops, ip)
    requires op.Learned? && op.ip == ip ==> forall e :: e in es ==> e.name != op.name
    ensures forall e :: e in es ==> Backed(e, ops + [op], ip)
  {
    forall e | e in es ensures Backed(e, ops + [op], ip) { LogExtends(ops, op, ip, e.name); }
  }

  lemma {:induction false} RefreshOk(es: seq<Entry>, ops: seq<Op>, op: Op)
    requires op.Learned? && EntriesOk(es, ops, op.ip) && FindName(es, op.name) < |es|
    ensures var i := FindName(es, op.name);
            EntriesOk(es[i := Refreshed(es[i], op.now, Floored(op.ttl))], ops + [op], op.ip)
  {
    var i := FindName(es, op.name);
    var es' := es[i := Refreshed(es[i], op.now, Floored(op.ttl))];
    forall k | 0 <= k < |es'| ensures Backed(es'[k], ops + [op], op.ip) {
      assert es[k] in es && Backed(es[k], ops, op.ip);
      LogExtends(ops, op, op.ip, es[k].name);
    }
  }

  lemma {:induction false} InsertOk(es: seq<Entry>, kept: seq<Entry>, ops: seq<Op>, op: Op)
    requires op.Learned? && (es == [] || EntriesOk(es, ops, op.ip)) && FindName(es, op.name) == |es|
    requires Trimmed(es, kept)
    ensures EntriesOk(kept + [Entry(op.name, op.now, op.now + Floored(op.ttl))], ops + [op], op.ip)
  {
    TrimKeeps(es, kept);
    var added := Entry(op.name, op.now, op.now + Floored(op.ttl));
    forall e | e in kept ensures e.name != op.name { assert e in es; }
    StillBacked(kept, ops, op, op.ip);
    LogExtends(ops, op, op.ip, op.name);
    forall e | e in kept + [added] ensures Backed(e, ops + [op], op.ip) {
      assert e in kept || e == added;
    }
  }

  lemma PruneBounds(t: Table, now: nat, r: Table)
    requires Pruned(t, now, r)
    ensures |r| <= 32768
    ensures forall ip :: ip in r ==> ip in t && r[ip] == Live(t[ip], now) && r[ip] != []
    ensures |LiveTable(t, now)| <= 32768 ==> r == LiveTable(t, now)
    ensures |LiveTable(t, now)| > 32768 ==> |r| == 32768
  {
    var live := LiveTable(t, now);
    var dropped: set<Ip> :| PrunedBy(live, dropped, r);
    assert r.Keys == live.Keys - dropped;
    assert |r.Keys| == |live.Keys| - |dropped|;
    assert |r.Keys| == |r| && |live.Keys| == |live|;
    if dropped == {} {
      assert live - {} == live;
    }
  }

  lemma PruneOk(t: Table, now: nat, r: Table, ops: seq<Op>)
    requires Inv(t, ops) && Pruned(t, now, r)
    ensures Inv(r, ops)
  {
    PruneBounds(t, now, r);
    forall ip | ip in r ensures EntriesOk(r[ip], ops, ip) { LivePart(t[ip], now); }
  }

  /** An unexpired address dropped by pruning was last seen no later than every address that is kept. */
  lemma PrunedOldest(t: Table, now: nat, r: Table, d: Ip, k: Ip)
    requires Pruned(t, now, r)
    requires d in t && Live(t[d], now) != [] && d !in r && k in r
    ensures k in t && Latest(Live(t[d], now)) <= Latest(Live(t[k], now))
  {
    var live := LiveTable(t, now);
    var dropped: set<Ip> :| PrunedBy(live, dropped, r);
    assert d in live && d in dropped;
  }

  lemma InsertSize(t: Table, ip: Ip, es: seq<Entry>)
    ensures |t[ip := es]| == |t| + if ip in t then 0 else 1
  {
    var t' := t[ip := es];
    assert t'.Keys == t.Keys + {ip};
    assert |t'.Keys| == |t'| && |t.Keys| == |t|;
  }

  lemma StepKeepsInv(t: Table, ops: seq<Op>, op: Op, t': Table)
    requires Inv(t, ops) && Step(t, op, t')
    ensures Inv(t', ops + [op])
  {
    if op.Asked? {
      forall ip | ip in t' ensures EntriesOk(t'[ip], ops + [op], ip) { StillBacked(t[ip], ops, op, ip); }
      assert t'.Keys <= t.Keys;
      SubsetSize(t'.Keys, t.Keys);
      assert |t'.Keys| == |t'| && |t.Keys| == |t|;
    } else {
      LearnKeepsInv(t, ops, op, t');
    }
  }

  lemma LearnKeepsInv(t: Table, ops: seq<Op>, op: Op, t': Table)
    requires op.Learned? && Inv(t, ops) && Step(t, op, t')
    ensures Inv(t', ops + [op])
  {
    hide Trimmed, Pruned;
    var es := Entries(t, op.ip);
    var i := FindName(es, op.name);
    if i < |es| {
      RefreshOk(es, ops, op);
      InsertSize(t, op.ip, t'[op.ip]);
      OthersOk(t, ops, op, t');
    } else {
      var kept, r :| Inserted(t, op.ip, op.name, Floored(op.ttl), op.now, t', kept, r);
      InsertOk(es, kept, ops, op);
      if NeedsPrune(t, op.ip) {
        PruneOk(t, op.now, r, ops);
        PruneBounds(t, op.now, r);
      }
      InsertSize(r, op.ip, t'[op.ip]);
      OthersOk(r, ops, op, t');
    }
  }

  lemma OthersOk(t: Table, ops: seq<Op>, op: Op, t': Table)
    requires op.Learned? && Inv(t, ops) && op.ip in t' && t' == t[op.ip := t'[op.ip]]
    requires EntriesOk(t'[op.ip], ops + [op], op.ip)
    ensures forall ip :: ip in t' ==> EntriesOk(t'[ip], ops + [op], ip)
  {
    forall ip | ip in t' ensures EntriesOk(t'[ip], ops + [op], ip) {
      if ip != op.ip {
        StillBacked(t[ip], ops, op, ip);
      }
    }
  }

  // ------------------------------------------------------------- over runs

  lemma RunPrefix(ts: seq<Table>, ops: seq<Op>, n: nat)
    requires Run(ts, ops) && n <= |ops|
    ensures Run(ts[..n + 1], ops[..n])
  {
  }

  /** In every reachable table each address has 1 to 16 distinct names, each backed by the log, and there are at most
      65536 addresses. */
  lemma {:induction false} RunKeepsInv(ts: seq<Table>, ops: seq<Op>)
    requires Run(ts, ops)
    ensures Inv(ts[|ops|], ops)
  {
    if ops != [] {
      var n := |ops| - 1;
      RunPrefix(ts, ops, n);
      RunKeepsInv(ts[..n + 1], ops[..n]);
      assert ts[..n + 1][n] == ts[n];
      StepKeepsInv(ts[n], ops[..n], ops[n], ts[n + 1]);
      assert ops[..n] + [ops[n]] == ops;
    }
  }

  /** Few distinct names, each unexpired in the log, ordered by when the log saw them last. */
  ghost predicate Sound(out: seq<string>, ops: seq<Op>, ip: Ip, now: nat) {
    && |out| <= 16
    && (forall i, j :: 0 <= i < j < |out| ==> out[i] != out[j])
    && (forall i :: 0 <= i < |out| ==> LogSeen(ops, ip, out[i]).Some? && LogExpires(ops, ip, out[i]) > now)
    && (forall i, j :: 0 <= i < j < |out| ==>
          LogSeen(ops, ip, out[i]).value >= LogSeen(ops, ip, out[j]).value)
  }

  /** Names answers with distinct names the log still remembers, most recently seen first. */
  lemma NamesSound(ts: seq<Table>, ops: seq<Op>, ip: Ip, now: nat)
    requires Run(ts, ops)
    ensures Sound(NamesOf(ts[|ops|], ip, now), ops, ip, now)
  {
    hide Step, Sound, Live, Sort;
    RunKeepsInv(ts, ops);
    EntriesSound(Entries(ts[|ops|], ip), ops, ip, now);
  }

  lemma EntriesSound(es: seq<Entry>, ops: seq<Op>, ip: Ip, now: nat)
    requires es == [] || EntriesOk(es, ops, ip)
    ensures Sound(NameList(Sort(Age, Live(es, now))), ops, ip, now)
  {
    LivePart(es, now);
    hide Live, Sort, LogSeen, LogExpires;
    var live := Live(es, now);
    var s := Sort(Age, live);
    SortSorts(Age, live);
    PermutationDistinct(live, s);
    forall i | 0 <= i < |s| ensures Backed(s[i], ops, ip) && s[i].expires > now {
      assert s[i] in s;
    }
    forall i, j | 0 <= i < j < |s| ensures s[i].seen >= s[j].seen {
      assert Age(s[i]) <= Age(s[j]);
    }
  }

  ghost predicate Quiet(t: Table, op: Op, ip: Ip) {
    op.Learned? ==> !NeedsPrune(t, op.ip) && (op.ip == ip ==> !NeedsTrim(t, ip, op.name))
  }

  ghost predicate Remembers(es: seq<Entry>, name: string, expires: nat) {
    exists e :: e in es && e.name == name && e.expires == expires
  }

  /** Every name the log still remembers is in the table, with the log's expiry. */
  ghost predicate Complete(t: Table, ops: seq<Op>, ip: Ip, now: nat) {
    forall name :: LogExpires(ops, ip, name) > now ==> Remembers(Entries(t, ip), name, LogExpires(ops, ip, name))
  }

  lemma {:induction false} AskKeepsComplete(t: Table, ops: seq<Op>, op: Op, t': Table, ip: Ip, now: nat)
    requires op.Asked? && Step(t, op, t') && Complete(t, ops, ip, now) && now <= op.now
    ensures Complete(t', ops + [op], ip, op.now)
  {
    forall name | LogExpires(ops + [op], ip, name) > op.now
      ensures Remembers(Entries(t', ip), name, LogExpires(ops + [op], ip, name))
    {
      LogExtends(ops, op, ip, name);
      LivePart(Entries(t, op.ip), op.now);
    }
  }

  lemma {:induction false} LearnKeepsComplete(t: Table, ops: seq<Op>, op: Op, t': Table, ip: Ip, now: nat)
    requires op.Learned? && Step(t, op, t') && Complete(t, ops, ip, now) && now <= op.now
    requires Inv(t, ops) && Quiet(t, op, ip)
    ensures Complete(t', ops + [op], ip, op.now)
  {
    var es := Entries(t, ip);
    forall name | LogExpires(ops + [op], ip, name) > op.now
      ensures Remembers(Entries(t', ip), name, LogExpires(ops + [op], ip, name))
    {
      LogExtends(ops, op, ip, name);
      if About(op, ip, name) {
        LearnedNow(t, ops, op, t', now);
      } else {
        var e :| e in es && e.name == name && e.expires == LogExpires(ops, ip, name);
        if op.ip == ip {
          OtherNameStays(t, op, t', e);
        }
      }
    }
  }

  /** A name other than the one just learned keeps its entry when there is room. */
  lemma {:induction false} OtherNameStays(t: Table, op: Op, t': Table, e: Entry)
    requires op.Learned? && Step(t, op, t') && Quiet(t, op, op.ip)
    requires e in Entries(t, op.ip) && e.name != op.name
    ensures e in Entries(t', op.ip)
  {
    var es := Entries(t, op.ip);
    var i := FindName(es, op.name);
    var k :| 0 <= k < |es| && es[k] == e;
    if i < |es| {
      assert t'[op.ip][k] == e;
    } else {
      var kept, r :| Inserted(t, op.ip, op.name, Floored(op.ttl), op.now, t', kept, r);
      assert t'[op.ip][k] == e;
    }
  }

  lemma {:induction false} LearnedNow(t: Table, ops: seq<Op>, op: Op, t': Table, now: nat)
    requires op.Learned? && Step(t, op, t') && Quiet(t, op, op.ip) && Inv(t, ops)
    requires Complete(t, ops, op.ip, now) && now <= op.now
    ensures Remembers(Entries(t', op.ip), op.name, LogExpires(ops + [op], op.ip, op.name))
  {
    hide Trimmed, Pruned;
    var es := Entries(t, op.ip);
    var i := FindName(es, op.name);
    var before := LogExpires(ops, op.ip, op.name);
    var until := op.now + Floored(op.ttl);
    assert (ops + [op])[..|ops|] == ops;
    assert LogExpires(ops + [op], op.ip, op.name) == if until > before then until else before;
    if i < |es| {
      assert es[i] in es && Backed(es[i], ops, op.ip);
      if before > now {
        var e :| e in es && e.name == op.name && e.expires == before;
        assert e == es[i];
      }
      assert t'[op.ip][i].expires == LogExpires(ops + [op], op.ip, op.name);
      assert t'[op.ip][i] in t'[op.ip];
    } else {
      assert before <= now;
      var kept, r :| Inserted(t, op.ip, op.name, Floored(op.ttl), op.now, t', kept, r);
      assert Entry(op.name, op.now, until) in t'[op.ip];
    }
  }

  ghost predicate QuietRun(ts: seq<Table>, ops: seq<Op>, ip: Ip)
    requires |ts| == |ops| + 1
  {
    forall i :: 0 <= i < |ops| ==> Quiet(ts[i], ops[i], ip)
  }

  lemma {:induction false} RunComplete(ts: seq<Table>, ops: seq<Op>, ip: Ip)
    requires Run(ts, ops) && QuietRun(ts, ops, ip)
    ensures Complete(ts[|ops|], ops, ip, Now(ops))
  {
    if ops != [] {
      var n := |ops| - 1;
      var t, init, op := ts[n], ops[..n], ops[n];
      RunPrefix(ts, ops, n);
      assert ts[..n + 1][n] == t;
      assert forall i :: 0 <= i < n ==> ts[..n + 1][i] == ts[i] && init[i] == ops[i];
      RunComplete(ts[..n + 1], init, ip);
      RunKeepsInv(ts[..n + 1], init);
      assert init + [op] == ops;
      if op.Asked? {
        AskKeepsComplete(t, init, op, ts[n + 1], ip, Now(init));
      } else {
        LearnKeepsComplete(t, init, op, ts[n + 1], ip, Now(init));
      }
    }
  }

  /** Then Names answers with exactly the names the unbounded log remembers. */
  lemma NamesExact(ts: seq<Table>, ops: seq<Op>, ip: Ip, now: nat, name: string)
    requires Run(ts, ops) && QuietRun(ts, ops, ip) && Now(ops) <= now
    ensures name in NamesOf(ts[|ops|], ip, now) <==> LogExpires(ops, ip, name) > now
  {
    NamesSound(ts, ops, ip, now);
    RunComplete(ts, ops, ip);
    var es := Entries(ts[|ops|], ip);
    var s := Sort(Age, Live(es, now));
    if LogExpires(ops, ip, name) > now {
      var e :| e in es && e.name == name && e.expires == LogExpires(ops, ip, name);
      LivePart(es, now);
      assert e in multiset(Live(es, now));
      assert e in s;
      var k :| 0 <= k < |s| && s[k] == e;
      assert NameList(s)[k] == name;
    }
  }

  /** A record that still counts: for its own time to live, and never for less than six hours. */
  ghost predicate Recalls(op: Op, ip: Ip, name: string, now: nat) {
    && op.Learned? && op.ip == ip && op.name == name
    && (now < op.now + 6 * 60 * 60 * 1_000_000_000 || now < op.now + op.ttl)
  }

  lemma {:induction false} ExpiresMeans(ops: seq<Op>, ip: Ip, name: string, now: nat)
    ensures LogExpires(ops, ip, name) > now <==> exists i :: 0 <= i < |ops| && Recalls(ops[i], ip, name, now)
  {
    if ops != [] {
      var init, last := ops[..|ops| - 1], ops[|ops| - 1];
      ExpiresMeans(init, ip, name, now);
      if i :| 0 <= i < |init| && Recalls(init[i], ip, name, now) {
        assert Recalls(ops[i], ip, name, now);
      }
      if i :| 0 <= i < |ops| && Recalls(ops[i], ip, name, now) {
        assert i < |init| ==> Recalls(init[i], ip, name, now);
      }
      assert Recalls(last, ip, name, now) ==> Recalls(ops[|ops| - 1], ip, name, now);
    }
  }

  /** Then a name is answered exactly when some record of it is less than six hours or than its time to live old. */
  lemma NamesRemembered(ts: seq<Table>, ops: seq<Op>, ip: Ip, now: nat, name: string)
    requires Run(ts, ops) && QuietRun(ts, ops, ip) && Now(ops) <= now
    ensures name in NamesOf(ts[|ops|], ip, now)
       <==> exists i :: 0 <= i < |ops| && Recalls(ops[i], ip, name, now)
  {
    NamesExact(ts, ops, ip, now, name);
    ExpiresMeans(ops, ip, name, now);
  }

  // ------------------------------------------------- a condition on the log

  function LoggedNames(ops: seq<Op>, ip: Ip): set<string> {
    set op | op in ops && op.Learned? && op.ip == ip :: op.name
  }

  function LoggedIps(ops: seq<Op>): set<Ip> {
    set op | op in ops && op.Learned? :: op.ip
  }

  function EntryNames(es: seq<Entry>): set<string> {
    set e | e in es :: e.name
  }

  lemma {:induction false} EntryNamesSize(es: seq<Entry>)
    requires DistinctNames(es)
    ensures |EntryNames(es)| == |es|
  {
    if es != [] {
      var init, last := es[..|es| - 1], es[|es| - 1];
      EntryNamesSize(init);
      assert es == init + [last];
      assert EntryNames(es) == EntryNames(init) + {last.name};
    }
  }

  lemma {:induction false} SeenIsLogged(ops: seq<Op>, ip: Ip, name: string)
    requires LogSeen(ops, ip, name).Some?
    ensures name in LoggedNames(ops, ip) && ip in LoggedIps(ops)
  {
    var n := |ops| - 1;
    assert ops[n] in ops;
    if !About(ops[n], ip, name) {
      SeenIsLogged(ops[..n], ip, name);
      assert forall op :: op in ops[..n] ==> op in ops;
    }
  }

  /** Before any operation the table is backed by what was recorded until then. */
  lemma {:induction false} InvBefore(ts: seq<Table>, ops: seq<Op>, i: nat)
    requires Run(ts, ops) && i < |ops|
    ensures Inv(ts[i], ops[..i]) && ops[i] in ops && forall o :: o in ops[..i] ==> o in ops
  {
    hide Step, Inv;
    RunPrefix(ts, ops, i);
    RunKeepsInv(ts[..i + 1], ops[..i]);
    assert ts[..i + 1][i] == ts[i];
  }

  lemma {:induction false} FewIps(t: Table, before: seq<Op>, ops: seq<Op>, op: Op)
    requires Inv(t, before) && op in ops && op.Learned? && forall o :: o in before ==> o in ops
    requires |LoggedIps(ops)| <= MAX_IPS
    ensures !NeedsPrune(t, op.ip)
  {
    if op.ip !in t {
      forall k | k in t
        ensures k in LoggedIps(ops)
      {
        assert t[k][0] in t[k] && Backed(t[k][0], before, k);
        SeenIsLogged(before, k, t[k][0].name);
      }
      assert |t.Keys| == |t|;
      SubsetSize(t.Keys + {op.ip}, LoggedIps(ops));
    }
  }

  lemma {:induction false} FewNames(t: Table, before: seq<Op>, ops: seq<Op>, op: Op, ip: Ip)
    requires Inv(t, before) && op in ops && op.Learned? && op.ip == ip && forall o :: o in before ==> o in ops
    requires |LoggedNames(ops, ip)| <= MAX_NAMES
    ensures !NeedsTrim(t, ip, op.name)
  {
    if NeedsTrim(t, ip, op.name) {
      var es := t[ip];
      EntryNamesSize(es);
      forall e | e in es
        ensures e.name in LoggedNames(ops, ip) && e.name != op.name
      {
        assert Backed(e, before, ip);
        SeenIsLogged(before, ip, e.name);
      }
      SubsetSize(EntryNames(es) + {op.name}, LoggedNames(ops, ip));
    }
  }

  lemma {:induction false} FewMeansQuiet(ts: seq<Table>, ops: seq<Op>, ip: Ip, i: nat)
    requires Run(ts, ops) && i < |ops|
    requires |LoggedNames(ops, ip)| <= MAX_NAMES && |LoggedIps(ops)| <= MAX_IPS
    ensures Quiet(ts[i], ops[i], ip)
  {
    hide Step, Inv, NeedsPrune, NeedsTrim, LoggedNames, LoggedIps;
    InvBefore(ts, ops, i);
    if ops[i].Learned? {
      FewIps(ts[i], ops[..i], ops, ops[i]);
      if ops[i].ip == ip {
        FewNames(ts[i], ops[..i], ops, ops[i], ip);
      }
    }
  }

  /** In terms of the log alone: 16 names for the address and 65536 addresses are remembered exactly. */
  lemma NamesExactWhenFew(ts: seq<Table>, ops: seq<Op>, ip: Ip, now: nat, name: string)
    requires Run(ts, ops) && Now(ops) <= now
    requires |LoggedNames(ops, ip)| <= 16 && |LoggedIps(ops)| <= 65536
    ensures name in NamesOf(ts[|ops|], ip, now) <==> LogExpires(ops, ip, name) > now
    ensures name in NamesOf(ts[|ops|], ip, now)
       <==> exists i :: 0 <= i < |ops| && Recalls(ops[i], ip, name, now)
  {
    forall i | 0 <= i < |ops| ensures Quiet(ts[i], ops[i], ip) { FewMeansQuiet(ts, ops, ip, i); }
    NamesExact(ts, ops, ip, now, name);
    NamesRemembered(ts, ops, ip, now, name);
  }

  // ------------------------------------------------------ pruning is not often

  ghost predicate PrunesAt(ts: seq<Table>, ops: seq<Op>, i: nat)
    requires i < |ops| < |ts|
  {
    && ops[i].Learned? && NeedsPrune(ts[i], ops[i].ip)
  }

  predicate IsNew(ts: seq<Table>, ops: seq<Op>, k: nat)
    requires k < |ops| < |ts|
  {
    ops[k].Learned? && ops[k].ip !in ts[k]
  }

  /** How many of the operations from i up to j put a new address into the table. */
  ghost function NewAddresses(ts: seq<Table>, ops: seq<Op>, i: nat, j: nat): nat
    requires i <= j <= |ops| < |ts|
    decreases j - i
  {
    if i == j then 0 else NewAddresses(ts, ops, i, j - 1) + if IsNew(ts, ops, j - 1) then 1 else 0
  }

  lemma {:induction false} GrowthIsNew(ts: seq<Table>, ops: seq<Op>, i: nat, j: nat)
    requires i <= j <= |ops| < |ts|
    requires forall k :: 0 <= k < |ops| ==> |ts[k + 1]| <= |ts[k]| + if IsNew(ts, ops, k) then 1 else 0
    ensures |ts[j]| <= |ts[i]| + NewAddresses(ts, ops, i, j)
    decreases j - i
  {
    if i < j {
      GrowthIsNew(ts, ops, i, j - 1);
      assert |ts[j - 1 + 1]| <= |ts[j - 1]| + if IsNew(ts, ops, j - 1) then 1 else 0;
    }
  }

  lemma {:induction false} StepGrowth(t: Table, op: Op, t': Table)
    requires Step(t, op, t')
    ensures |t'| <= |t| + if op.Learned? && op.ip !in t then 1 else 0
    ensures op.Learned? && NeedsPrune(t, op.ip) ==> |t'| <= MAX_IPS / 2 + 1
  {
    assert |t.Keys| == |t| && |t'.Keys| == |t'|;
    if op.Asked? {
      SubsetSize(t'.Keys, t.Keys);
    } else if FindName(Entries(t, op.ip), op.name) < |Entries(t, op.ip)| {
      InsertSize(t, op.ip, t'[op.ip]);
    } else {
      var kept, r :| Inserted(t, op.ip, op.name, Floored(op.ttl), op.now, t', kept, r);
      if NeedsPrune(t, op.ip) {
        PruneBounds(t, op.now, r);
      }
      InsertSize(r, op.ip, t'[op.ip]);
    }
  }

  lemma RunGrowth(ts: seq<Table>, ops: seq<Op>, k: nat)
    requires Run(ts, ops) && k < |ops|
    ensures |ts[k + 1]| <= |ts[k]| + if IsNew(ts, ops, k) then 1 else 0
    ensures PrunesAt(ts, ops, k) ==> |ts[k]| >= MAX_IPS && IsNew(ts, ops, k) && |ts[k + 1]| <= MAX_IPS / 2 + 1
  {
    assert Step(ts[k], ops[k], ts[k + 1]);
    StepGrowth(ts[k], ops[k], ts[k + 1]);
  }

  /** Between two prunes at least 32768 addresses are new, the one that causes the second included. */
  lemma PrunesFarApart(ts: seq<Table>, ops: seq<Op>, i: nat, j: nat)
    requires Run(ts, ops) && i < j < |ops| && PrunesAt(ts, ops, i) && PrunesAt(ts, ops, j)
    ensures NewAddresses(ts, ops, i + 1, j + 1) >= 32768
  {
    hide Step;
    forall k | 0 <= k < |ops|
      ensures |ts[k + 1]| <= |ts[k]| + if IsNew(ts, ops, k) then 1 else 0
    {
      RunGrowth(ts, ops, k);
    }
    RunGrowth(ts, ops, i);
    RunGrowth(ts, ops, j);
    GrowthIsNew(ts, ops, i + 1, j);
  }
}
