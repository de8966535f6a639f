/** What holds of the roles, and of the owners over every sequence of registrations and share actions. */
module AclRuns {
  import opened Text
  import opened Acl

  // ----------------------------------------------------------------- the rows

  ghost predicate GoodEndpoint(host: Host, ep: Endpoint) {
    Key(ep.hostname) == host && Tidy(ep.hostname) && Tidy(ep.owner)
  }

  ghost predicate GoodGrant(s: State, g: Grant) {
    g.host in s.endpoints && Tidy(g.value)
  }

  ghost predicate Inv(s: State) {
    && (forall host :: host in s.endpoints ==> GoodEndpoint(host, s.endpoints[host]))
    && (forall g :: g in s.grants ==> GoodGrant(s, g))
  }

  lemma TidyLetters(a: string, b: string)
    requires Nocase(a) == Nocase(b) && Tidy(a)
    ensures Tidy(b)
  {
    assert |a| == |b| by {
      assert |Nocase(a)| == |Nocase(b)|;
    }
    var n := |a| - 1;
    assert Nocase(a)[0] == Nocase(b)[0] && Nocase(a)[n] == Nocase(b)[n];
    SpaceLetters(a[0], b[0]);
    SpaceLetters(a[n], b[n]);
  }

  lemma SpaceLetters(c: char, d: char)
    requires AsciiLower(c) == AsciiLower(d)
    ensures IsSpace(c) <==> IsSpace(d)
  {
  }

  lemma FoldsLetters(fold: char -> char, a: string, b: string)
    requires Folding(fold) && Nocase(a) == Nocase(b)
    ensures SameFolded(fold, a, b)
  {
    assert |Nocase(a)| == |Nocase(b)|;
    forall i | 0 <= i < |a|
      ensures fold(a[i]) == fold(b[i])
    {
      assert Nocase(a)[i] == Nocase(b)[i];
    }
  }

  /** The name of a registered endpoint has nothing to trim, however it is written. */
  lemma RegisteredName(s: State, hostname: string)
    requires Inv(s) && Key(hostname) in s.endpoints
    ensures TrimSpace(hostname) == hostname && hostname != ""
  {
    assert GoodEndpoint(Key(hostname), s.endpoints[Key(hostname)]);
    TidyLetters(s.endpoints[Key(hostname)].hostname, hostname);
    TrimTidy(hostname);
  }

  // ---------------------------------------------------------------- the roles

  /** An endpoint that names itself as its parent has only its own rows, and nothing recurses. */
  lemma SelfParent(s: State, fold: char -> char, host: Host, c: Caller)
    requires Inv(s) && Folding(fold) && host in s.endpoints && Key(s.endpoints[host].parent) == host
    ensures RoleOf(s, fold, host, c) == DirectRole(s, fold, host, c)
         == Highest(DirectRole(s, fold, host, c), DirectRole(s, fold, Key(s.endpoints[host].parent), c))
  {
    assert GoodEndpoint(host, s.endpoints[host]);
    FoldsLetters(fold, s.endpoints[host].parent, s.endpoints[host].hostname);
  }

  /** Two endpoints that name each other give everybody the same role. */
  lemma MutualParents(s: State, fold: char -> char, a: Host, b: Host, c: Caller)
    requires a in s.endpoints && b in s.endpoints
    requires s.endpoints[a].parent != "" && Key(s.endpoints[a].parent) == b
    requires s.endpoints[b].parent != "" && Key(s.endpoints[b].parent) == a
    requires !SameFolded(fold, s.endpoints[a].parent, s.endpoints[a].hostname)
    requires !SameFolded(fold, s.endpoints[b].parent, s.endpoints[b].hostname)
    ensures RoleOf(s, fold, a, c) == RoleOf(s, fold, b, c)
  {
  }

  /** The role is the highest of the endpoint's and the parent's own rows, unless the two names are the same to the
      program and different to the database, and the parent gives more. */
  lemma RoleIsHighest(s: State, fold: char -> char, host: Host, c: Caller)
    requires host in s.endpoints && s.endpoints[host].parent != ""
    ensures var ep := s.endpoints[host];
            var own, above := DirectRole(s, fold, host, c), DirectRole(s, fold, Key(ep.parent), c);
            RoleOf(s, fold, host, c) == Highest(own, above)
            <==> !SameFolded(fold, ep.parent, ep.hostname) || Rank(above) <= Rank(own)
  {
  }

  /** Delegation never makes an owner of someone who owns neither the endpoint nor its parent. */
  lemma NoUpgrade(s: State, fold: char -> char, host: Host, c: Caller)
    requires RoleOf(s, fold, host, c) == Owner
    ensures host in s.endpoints
    ensures DirectRole(s, fold, host, c) == Owner || DirectRole(s, fold, Key(s.endpoints[host].parent), c) == Owner
  {
  }

  ghost predicate NoNarrower(s: State, t: State, fold: char -> char, c: Caller) {
    forall host :: Rank(RoleOf(s, fold, host, c)) <= Rank(RoleOf(t, fold, host, c))
  }

  ghost predicate MoreRows(s: State, t: State) {
    && s.grants <= t.grants
    && forall host :: host in s.endpoints ==> host in t.endpoints && t.endpoints[host] == s.endpoints[host]
  }

  lemma DirectWidens(s: State, t: State, fold: char -> char, host: Host, c: Caller)
    requires MoreRows(s, t)
    ensures Rank(DirectRole(s, fold, host, c)) <= Rank(DirectRole(t, fold, host, c))
  {
    if host in s.endpoints {
      WidensRole(s, t, fold, host, c, Owner);
      WidensRole(s, t, fold, host, c, Access);
    }
  }

  lemma WidensRole(s: State, t: State, fold: char -> char, host: Host, c: Caller, role: Role)
    requires MoreRows(s, t)
    ensures Granted(s, fold, host, c, role) ==> Granted(t, fold, host, c, role)
  {
    if Granted(s, fold, host, c, role) {
      var g :| g in s.grants && g.host == host && g.role == role && Matches(fold, g, c);
      assert g in t.grants;
    }
  }

  /** More rows never take a role away, from a member of the endpoint or through a parent. */
  lemma Widens(s: State, t: State, fold: char -> char, c: Caller)
    requires MoreRows(s, t)
    ensures NoNarrower(s, t, fold, c)
  {
    forall host
      ensures Rank(RoleOf(s, fold, host, c)) <= Rank(RoleOf(t, fold, host, c))
    {
      DirectWidens(s, t, fold, host, c);
      if host in s.endpoints {
        DirectWidens(s, t, fold, Key(s.endpoints[host].parent), c);
      }
    }
  }

  /** A grant takes effect for everyone it matches, also when a row with the same key was there already. */
  lemma GrantTakesEffect(s: State, fold: char -> char, g: Grant, c: Caller)
    requires Folding(fold) && g.host in s.endpoints && Matches(fold, g, c)
    ensures Rank(DirectRole(AfterGrant(s, g), fold, g.host, c)) >= Rank(g.role)
  {
    var t := AfterGrant(s, g);
    if h :| h in s.grants && SameKey(h, g) {
      MatchesSameKey(fold, g, h, c);
      assert h in t.grants && Granted(t, fold, g.host, c, g.role);
    } else {
      assert g in t.grants && Granted(t, fold, g.host, c, g.role);
    }
  }

  lemma MatchesSameKey(fold: char -> char, g: Grant, h: Grant, c: Caller)
    requires Folding(fold) && SameKey(h, g) && Matches(fold, g, c)
    ensures Matches(fold, h, c)
  {
    FoldsLetters(fold, h.value, g.value);
    if g.kind == Group {
      var i :| 0 <= i < |c.groups| && SameFolded(fold, TrimSpace(c.groups[i]), g.value);
      assert SameFolded(fold, TrimSpace(c.groups[i]), h.value);
    }
  }

  /** Neither granting nor dropping a grant changes the direct role of anyone the grant does not match. */
  lemma OnlyMatchingChange(s: State, fold: char -> char, g: Grant, c: Caller, host: Host)
    requires Folding(fold) && !Matches(fold, g, c)
    ensures DirectRole(AfterGrant(s, g), fold, host, c) == DirectRole(s, fold, host, c)
    ensures DirectRole(AfterRemove(s, g), fold, host, c) == DirectRole(s, fold, host, c)
  {
    SameGranted(s, AfterGrant(s, g), fold, g, c, host, Owner);
    SameGranted(s, AfterGrant(s, g), fold, g, c, host, Access);
    SameGranted(s, AfterRemove(s, g), fold, g, c, host, Owner);
    SameGranted(s, AfterRemove(s, g), fold, g, c, host, Access);
  }

  lemma SameGranted(s: State, t: State, fold: char -> char, g: Grant, c: Caller, host: Host, role: Role)
    requires Folding(fold) && !Matches(fold, g, c)
    requires forall h :: h in s.grants && h !in t.grants ==> SameKey(h, g)
    requires forall h :: h in t.grants && h !in s.grants ==> h == g
    ensures Granted(t, fold, host, c, role) == Granted(s, fold, host, c, role)
  {
    if Granted(s, fold, host, c, role) {
      var h :| h in s.grants && h.host == host && h.role == role && Matches(fold, h, c);
      if SameKey(h, g) {
        MatchesSameKey(fold, h, g, c);
      }
      assert h in t.grants;
    }
    if Granted(t, fold, host, c, role) {
      var h :| h in t.grants && h.host == host && h.role == role && Matches(fold, h, c);
      assert h in s.grants;
    }
  }

  /** A share form without a role makes nobody an owner. */
  lemma NoOwnerByDefault(s: State, hostname: string, form: Form, host: Host)
    requires TrimSpace(form.role) == ""
    ensures EmailOwners(AfterShareGrant(s, hostname, form).state, host) == EmailOwners(s, host)
    ensures forall g :: g in AfterShareGrant(s, hostname, form).state.grants && g.role == Owner ==> g in s.grants
  {
    var t := AfterShareGrant(s, hostname, form).state;
    assert t.endpoints == s.endpoints && RoleNamed("access") == [Access];
    assert forall g :: g in t.grants && g !in s.grants ==> g.role == Access;
    assert forall g :: g in s.grants ==> g in t.grants;
  }

  // ------------------------------------------------------------- whole runs

  datatype Event =
    | Register(hostname: string, owner: string, parent: string)
    | Share(hostname: string, form: Form, owners: seq<string>)

  /** One call; the owners of a share action are the listing it works from. */
  ghost predicate Next(s: State, fold: char -> char, lower: char -> char, e: Event, t: State) {
    match e
    case Register(hostname, owner, parent) => t == AfterRegister(s, hostname, owner, parent)
    case Share(hostname, form, owners) =>
      Lists(s, lower, Key(hostname), owners) && t == AfterShare(s, fold, hostname, form, owners).state
  }

  ghost predicate Run(fold: char -> char, lower: char -> char, es: seq<Event>, states: seq<State>) {
    && |states| == |es| + 1
    && states[0] == State(map[], {})
    && forall i :: 0 <= i < |es| ==> Next(states[i], fold, lower, es[i], states[i + 1])
  }

  lemma ListedIsOwner(s: State, lower: char -> char, host: Host, owners: seq<string>, i: nat)
    requires Inv(s) && Lists(s, lower, host, owners) && i < |owners|
    ensures Tidy(owners[i]) && owners[i] in EmailOwners(s, host)
  {
    hide TrimSpace, SameFolded;
    assert IsTrimmedOwner(s, host, owners[i]);
    var o :| o in EmailOwners(s, host) && owners[i] == TrimSpace(o);
    if host in s.endpoints {
      assert GoodEndpoint(host, s.endpoints[host]);
    }
    TrimTidy(o);
  }

  lemma {:induction false} OthersAreListed(fold: char -> char, owners: seq<string>, email: string, j: nat) returns (i: nat)
    requires j < |Others(fold, owners, email)|
    ensures i < |owners| && Others(fold, owners, email)[j] == owners[i] && !SameFolded(fold, owners[i], email)
  {
    if SameFolded(fold, owners[0], email) {
      var k := OthersAreListed(fold, owners[1..], email, j);
      i := k + 1;
    } else if j == 0 {
      i := 0;
    } else {
      var k := OthersAreListed(fold, owners[1..], email, j - 1);
      i := k + 1;
    }
  }

  /** The owner the slot is handed to. */
  lemma Heir(s: State, fold: char -> char, lower: char -> char, host: Host, owners: seq<string>, email: string)
    requires Inv(s) && Lists(s, lower, host, owners) && Others(fold, owners, email) != []
    ensures var heir := Others(fold, owners, email)[0];
            Tidy(heir) && heir in EmailOwners(s, host) && !SameFolded(fold, heir, email)
  {
    var i := OthersAreListed(fold, owners, email, 0);
    ListedIsOwner(s, lower, host, owners, i);
  }

  lemma OwnerHasEndpoint(s: State, host: Host, o: string)
    requires Inv(s) && o in EmailOwners(s, host)
    ensures host in s.endpoints
  {
    if g :| g in s.grants && g.host == host {
      assert GoodGrant(s, g);
    }
  }

  /** What a revocation that finds an owner and another one leaves. */
  lemma RevokeLeaves(s: State, fold: char -> char, lower: char -> char, hostname: string, email: string,
                     owners: seq<string>)
    requires Inv(s) && Lists(s, lower, Key(hostname), owners)
    requires var rest := Others(fold, owners, TrimSpace(email)); rest != [] && |rest| != |owners|
    ensures var t, e, host := AfterRevoke(s, fold, hostname, email, owners), TrimSpace(email), Key(hostname);
            && t.ok && host in s.endpoints
            && t.state.grants == (set g | g in s.grants && !SameKey(g, Grant(host, Email, e, Owner)))
            && t.state.endpoints
            == if SameFolded(fold, s.endpoints[host].owner, e)
               then s.endpoints[host := s.endpoints[host].(owner := Others(fold, owners, e)[0])]
               else s.endpoints
  {
    var e, host := TrimSpace(email), Key(hostname);
    ListedIsOwner(s, lower, host, owners, 0);
    OwnerHasEndpoint(s, host, owners[0]);
    RegisteredName(s, hostname);
    Heir(s, fold, lower, host, owners, e);
    TrimTidy(Others(fold, owners, e)[0]);
  }

  lemma RevokeKeepsInv(s: State, fold: char -> char, lower: char -> char, hostname: string, email: string,
                       owners: seq<string>)
    requires Inv(s) && Lists(s, lower, Key(hostname), owners)
    ensures Inv(AfterRevoke(s, fold, hostname, email, owners).state)
  {
    var rest := Others(fold, owners, TrimSpace(email));
    if rest != [] && |rest| != |owners| {
      RevokeLeaves(s, fold, lower, hostname, email, owners);
      Heir(s, fold, lower, Key(hostname), owners, TrimSpace(email));
      HandOver(s, Key(hostname), rest[0], AfterRevoke(s, fold, hostname, email, owners).state);
    }
  }

  lemma HandOver(s: State, host: Host, heir: string, t: State)
    requires Inv(s) && host in s.endpoints && Tidy(heir) && t.grants <= s.grants
    requires t.endpoints == s.endpoints || t.endpoints == s.endpoints[host := s.endpoints[host].(owner := heir)]
    ensures Inv(t)
  {
    forall h | h in t.endpoints
      ensures GoodEndpoint(h, t.endpoints[h])
    {
      assert GoodEndpoint(h, s.endpoints[h]);
    }
    forall g | g in t.grants
      ensures GoodGrant(t, g)
    {
      assert GoodGrant(s, g);
    }
  }

  lemma GrantKeepsInv(s: State, g: Grant)
    requires Inv(s) && Tidy(g.value)
    ensures Inv(AfterGrant(s, g))
  {
    var t := AfterGrant(s, g);
    forall h | h in t.grants
      ensures GoodGrant(t, h)
    {
      if h in s.grants {
        assert GoodGrant(s, h);
      }
    }
  }

  lemma RemoveKeepsInv(s: State, g: Grant)
    requires Inv(s)
    ensures Inv(AfterRemove(s, g))
  {
    var t := AfterRemove(s, g);
    forall h | h in t.grants
      ensures GoodGrant(t, h)
    {
      assert GoodGrant(s, h);
    }
  }

  lemma ShareKeepsInv(s: State, fold: char -> char, lower: char -> char, hostname: string, form: Form,
                      owners: seq<string>)
    requires Inv(s) && Lists(s, lower, Key(hostname), owners)
    ensures Inv(AfterShare(s, fold, hostname, form, owners).state)
  {
    hide Inv, AfterShareGrant, AfterShareRevoke, TrimSpace, Lists;
    ShareGrantKeepsInv(s, hostname, form);
    ShareRevokeKeepsInv(s, fold, lower, hostname, form, owners);
  }

  lemma ShareGrantKeepsInv(s: State, hostname: string, form: Form)
    requires Inv(s)
    ensures Inv(AfterShareGrant(s, hostname, form).state)
  {
    TrimmedIsTidy(form.principalValue);
    var t := AfterShareGrant(s, hostname, form).state;
    if t != s {
      var kind, value := KindOf(TrimSpace(form.principalType)), TrimSpace(form.principalValue);
      var role := RoleNamed(if TrimSpace(form.role) == "" then "access" else TrimSpace(form.role));
      GrantKeepsInv(s, Grant(Key(hostname), kind[0], value, role[0]));
    }
  }

  lemma ShareRevokeKeepsInv(s: State, fold: char -> char, lower: char -> char, hostname: string, form: Form,
                            owners: seq<string>)
    requires Inv(s) && Lists(s, lower, Key(hostname), owners)
    ensures Inv(AfterShareRevoke(s, fold, hostname, form, owners).state)
  {
    var kind, role := KindOf(TrimSpace(form.principalType)), RoleNamed(TrimSpace(form.role));
    var value := TrimSpace(form.principalValue);
    RevokeKeepsInv(s, fold, lower, hostname, value, owners);
    if kind != [] && role != [] {
      RemoveKeepsInv(s, Grant(Key(hostname), kind[0], value, role[0]));
    }
  }

  lemma RegisterKeepsInv(s: State, hostname: string, owner: string, parent: string)
    requires Inv(s)
    ensures Inv(AfterRegister(s, hostname, owner, parent))
  {
    TrimmedIsTidy(hostname);
    TrimmedIsTidy(owner);
    var t := AfterRegister(s, hostname, owner, parent);
    forall host | host in t.endpoints
      ensures GoodEndpoint(host, t.endpoints[host])
    {
      if host in s.endpoints {
        assert GoodEndpoint(host, s.endpoints[host]);
      }
    }
    forall g | g in t.grants
      ensures GoodGrant(t, g)
    {
      assert GoodGrant(s, g);
    }
  }

  lemma {:induction false} RunKeepsInv(fold: char -> char, lower: char -> char, es: seq<Event>, states: seq<State>,
                                       n: nat)
    requires Run(fold, lower, es, states) && n <= |es|
    ensures Inv(states[n])
  {
    if n > 0 {
      RunKeepsInv(fold, lower, es, states, n - 1);
      assert Next(states[n - 1], fold, lower, es[n - 1], states[n - 1 + 1]);
      match es[n - 1] {
        case Register(hostname, owner, parent) =>
          RegisterKeepsInv(states[n - 1], hostname, owner, parent);
        case Share(hostname, form, owners) =>
          ShareKeepsInv(states[n - 1], fold, lower, hostname, form, owners);
      }
    }
  }

  /** At every moment every endpoint has an owner with an address, and any listing of its owners shows one. */
  lemma AlwaysOwned(fold: char -> char, lower: char -> char, es: seq<Event>, states: seq<State>, n: nat,
                    hostname: string, owners: seq<string>)
    requires Run(fold, lower, es, states) && n <= |es| && Key(hostname) in states[n].endpoints
    requires Lists(states[n], lower, Key(hostname), owners)
    ensures owners != [] && owners[0] in EmailOwners(states[n], Key(hostname))
    ensures DirectRole(states[n], fold, Key(hostname), Caller(owners[0], [])) == Owner
  {
    RunKeepsInv(fold, lower, es, states, n);
    assert GoodEndpoint(Key(hostname), states[n].endpoints[Key(hostname)]);
    TrimTidy(states[n].endpoints[Key(hostname)].owner);
    ListedIsOwner(states[n], lower, Key(hostname), owners, 0);
  }

  /** Registering and granting never take a role from anyone. */
  lemma GrantsOnlyWiden(s: State, fold: char -> char, lower: char -> char, e: Event, t: State, c: Caller)
    requires Next(s, fold, lower, e, t)
    requires e.Share? ==> TrimSpace(e.form.action) != "revoke"
    ensures NoNarrower(s, t, fold, c)
  {
    assert MoreRows(s, t);
    Widens(s, t, fold, c);
  }
}
