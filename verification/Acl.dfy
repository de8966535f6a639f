/** The access rows of the protected endpoints: roles, grants and ownership. */
module Acl {
  import opened Text

  // ------------------------------------------------------------ ignoring case

  /** The database ignores the case of the ASCII letters only. */
  function AsciiLower(c: char): char {
    if 'A' <= c <= 'Z' then ((c as int) + 32) as char else c
  }

  function Nocase(s: string): (r: string)
    ensures |r| == |s|
  {
    seq(|s|, i requires 0 <= i < |s| => AsciiLower(s[i]))
  }

  /** Equality once every character is folded. */
  predicate SameFolded(fold: char -> char, a: string, b: string) {
    |a| == |b| && forall i :: 0 <= i < |a| ==> fold(a[i]) == fold(b[i])
  }

  /** Any way of folding that ignores the case of the ASCII letters, and perhaps more. */
  ghost predicate Folding(fold: char -> char) {
    forall c, d :: AsciiLower(c) == AsciiLower(d) ==> fold(c) == fold(d)
  }

  // ----------------------------------------------------------------- the rows

  datatype Role = NoRole | Access | Owner

  datatype Kind = Email | Group

  /** A host name as the database compares it. */
  datatype Host = Host(name: string)

  function Key(hostname: string): Host {
    Host(Nocase(hostname))
  }

  datatype Endpoint = Endpoint(hostname: string, owner: string, parent: string)

  datatype Grant = Grant(host: Host, kind: Kind, value: string, role: Role)

  datatype State = State(endpoints: map<Host, Endpoint>, grants: set<Grant>)

  /** The two rows have the same primary key. */
  predicate SameKey(g: Grant, h: Grant) {
    g.host == h.host && g.kind == h.kind && g.role == h.role && Nocase(g.value) == Nocase(h.value)
  }

  // ---------------------------------------------------------------- the roles

  function Rank(r: Role): nat {
    match r
    case NoRole => 0
    case Access => 1
    case Owner => 2
  }

  function Highest(a: Role, b: Role): Role {
    if Rank(a) < Rank(b) then b else a
  }

  /** Who asks: an address and the groups it belongs to. */
  datatype Caller = Caller(email: string, groups: seq<string>)

  predicate Matches(fold: char -> char, g: Grant, c: Caller) {
    match g.kind
    case Email => SameFolded(fold, g.value, c.email)
    case Group => exists i :: 0 <= i < |c.groups| && SameFolded(fold, TrimSpace(c.groups[i]), g.value)
  }

  ghost predicate Granted(s: State, fold: char -> char, host: Host, c: Caller, role: Role) {
    exists g :: g in s.grants && g.host == host && g.role == role && Matches(fold, g, c)
  }

  ghost predicate Recorded(s: State, fold: char -> char, host: Host, c: Caller) {
    host in s.endpoints && SameFolded(fold, s.endpoints[host].owner, c.email)
  }

  /** The highest role the endpoint's own rows give. */
  ghost function DirectRole(s: State, fold: char -> char, host: Host, c: Caller): Role {
    if host !in s.endpoints then NoRole
    else if Recorded(s, fold, host, c) || Granted(s, fold, host, c, Owner) then Owner
    else if Granted(s, fold, host, c, Access) then Access
    else NoRole
  }

  /** The role that comes from the parent's own rows; a row that names itself has no parent. */
  ghost function InheritedRole(s: State, fold: char -> char, host: Host, c: Caller): Role {
    if host !in s.endpoints || s.endpoints[host].parent == "" then NoRole
    else if SameFolded(fold, s.endpoints[host].parent, s.endpoints[host].hostname) then NoRole
    else DirectRole(s, fold, Key(s.endpoints[host].parent), c)
  }

  ghost function RoleOf(s: State, fold: char -> char, host: Host, c: Caller): Role {
    Highest(DirectRole(s, fold, host, c), InheritedRole(s, fold, host, c))
  }

  // ------------------------------------------------------------------ changes

  function AfterRegister(s: State, hostname: string, owner: string, parent: string): State {
    var name, email := TrimSpace(hostname), TrimSpace(owner);
    if name == "" || email == "" || Key(name) in s.endpoints then s
    else s.(endpoints := s.endpoints[Key(name) := Endpoint(name, email, parent)])
  }

  /** A grant needs its endpoint, and a second one with the same key is ignored. */
  function AfterGrant(s: State, g: Grant): State {
    if g.host !in s.endpoints || exists h :: h in s.grants && SameKey(h, g) then s
    else s.(grants := s.grants + {g})
  }

  function AfterRemove(s: State, g: Grant): State {
    s.(grants := set h | h in s.grants && !SameKey(h, g))
  }

  function AfterSetOwner(s: State, hostname: string, owner: string): State {
    var key := Key(TrimSpace(hostname));
    if TrimSpace(hostname) == "" || key !in s.endpoints then s
    else s.(endpoints := s.endpoints[key := s.endpoints[key].(owner := TrimSpace(owner))])
  }

  /** The addresses recorded as owners, in the slot and in the grants. */
  ghost function EmailOwners(s: State, host: Host): set<string> {
    (if host in s.endpoints then {s.endpoints[host].owner} else {})
    + set g | g in s.grants && g.host == host && g.kind == Email && g.role == Owner :: g.value
  }

  ghost predicate Shows(owners: seq<string>, lower: char -> char, x: string) {
    exists i :: 0 <= i < |owners| && SameFolded(lower, owners[i], x)
  }

  /** A listing of the owners: the slot first, nobody twice, the grants in no particular order. */
  ghost predicate Lists(s: State, lower: char -> char, host: Host, owners: seq<string>) {
    && (forall i :: 0 <= i < |owners| ==> owners[i] != "" && IsTrimmedOwner(s, host, owners[i]))
    && (forall o :: o in EmailOwners(s, host) && TrimSpace(o) != "" ==> Shows(owners, lower, TrimSpace(o)))
    && (forall i, j :: 0 <= i < j < |owners| ==> !SameFolded(lower, owners[i], owners[j]))
    && (host in s.endpoints && TrimSpace(s.endpoints[host].owner) != ""
        ==> owners != [] && owners[0] == TrimSpace(s.endpoints[host].owner))
  }

  ghost predicate IsTrimmedOwner(s: State, host: Host, x: string) {
    exists o :: o in EmailOwners(s, host) && x == TrimSpace(o)
  }

  function Others(fold: char -> char, owners: seq<string>, email: string): seq<string> {
    if owners == [] then []
    else (if SameFolded(fold, owners[0], email) then [] else [owners[0]]) + Others(fold, owners[1..], email)
  }

  /** Whether the call succeeds, and the rows after it. */
  datatype Outcome = Outcome(ok: bool, state: State)

  function AfterRevoke(s: State, fold: char -> char, hostname: string, email: string, owners: seq<string>): Outcome {
    var e := TrimSpace(email);
    var rest := Others(fold, owners, e);
    if |rest| == |owners| then Outcome(true, s)
    else if rest == [] then Outcome(false, s)
    else
      var t := AfterRemove(s, Grant(Key(hostname), Email, e, Owner));
      if Key(hostname) in t.endpoints && SameFolded(fold, t.endpoints[Key(hostname)].owner, e) then
        Outcome(TrimSpace(hostname) != "", AfterSetOwner(t, hostname, rest[0]))
      else Outcome(true, t)
  }

  // ------------------------------------------------------------- share actions

  datatype Form = Form(action: string, principalType: string, principalValue: string, role: string, email: string)

  function KindOf(s: string): seq<Kind> {
    if s == "email" then [Email] else if s == "group" then [Group] else []
  }

  function RoleNamed(s: string): seq<Role> {
    if s == "owner" then [Owner] else if s == "access" then [Access] else []
  }

  function AfterShareGrant(s: State, hostname: string, form: Form): Outcome {
    var kind := KindOf(TrimSpace(form.principalType));
    var value := TrimSpace(form.principalValue);
    var role := RoleNamed(if TrimSpace(form.role) == "" then "access" else TrimSpace(form.role));
    if value == "" || kind == [] || role == [] || Key(hostname) !in s.endpoints then Outcome(false, s)
    else Outcome(true, AfterGrant(s, Grant(Key(hostname), kind[0], value, role[0])))
  }

  function AfterShareRevoke(s: State, fold: char -> char, hostname: string, form: Form, owners: seq<string>): Outcome {
    var kind, role := KindOf(TrimSpace(form.principalType)), RoleNamed(TrimSpace(form.role));
    if kind == [Email] && role == [Owner] then AfterRevoke(s, fold, hostname, TrimSpace(form.principalValue), owners)
    else if kind == [] || role == [] then Outcome(true, s)
    else Outcome(true, AfterRemove(s, Grant(Key(hostname), kind[0], TrimSpace(form.principalValue), role[0])))
  }

  /** One form against an endpoint; the pending requests are no part of the rows here. */
  function AfterShare(s: State, fold: char -> char, hostname: string, form: Form, owners: seq<string>): Outcome {
    var action := TrimSpace(form.action);
    if action == "" || action == "grant" then AfterShareGrant(s, hostname, form)
    else if action == "revoke" then AfterShareRevoke(s, fold, hostname, form, owners)
    else if action == "deny-request" then Outcome(TrimSpace(form.email) != "", s)
    else Outcome(false, s)
  }

  // ------------------------------------------------------------------ the store

  class Store {
    const fold: char -> char
    const lower: char -> char
    var endpoints: map<Host, Endpoint>
    var grants: set<Grant>

    ghost function View(): State
      reads this
    {
      State(endpoints, grants)
    }

    constructor (fold: char -> char, lower: char -> char)
      ensures View() == State(map[], {}) && this.fold == fold && this.lower == lower
    {
      this.fold, this.lower := fold, lower;
      endpoints, grants := map[], {};
    }

    method RegisterEndpoint(hostname: string, ownerEmail: string, parentEndpoint: string) returns (ok: bool)
      modifies this
      ensures View() == AfterRegister(old(View()), hostname, ownerEmail, parentEndpoint)
      ensures ok <==> TrimSpace(hostname) != "" && TrimSpace(ownerEmail) != ""
    {
      var name, email := TrimSpace(hostname), TrimSpace(ownerEmail);
      ok := name != "" && email != "";
      if ok && Key(name) !in endpoints {
        endpoints := endpoints[Key(name) := Endpoint(name, email, parentEndpoint)];
      }
    }

    method SetEndpointOwner(hostname: string, ownerEmail: string) returns (ok: bool)
      modifies this
      ensures View() == AfterSetOwner(old(View()), hostname, ownerEmail)
      ensures ok <==> TrimSpace(hostname) != ""
    {
      var name := TrimSpace(hostname);
      ok := name != "";
      if ok && Key(name) in endpoints {
        endpoints := endpoints[Key(name) := endpoints[Key(name)].(owner := TrimSpace(ownerEmail))];
      }
    }

    method AddGrant(hostname: string, kind: Kind, value: string, role: Role) returns (ok: bool)
      modifies this
      ensures View() == AfterGrant(old(View()), Grant(Key(hostname), kind, value, role))
      ensures ok <==> Key(hostname) in old(endpoints)
    {
      var g := Grant(Key(hostname), kind, value, role);
      ok := g.host in endpoints;
      if ok && !exists h | h in grants :: SameKey(h, g) {
        grants := grants + {g};
      }
    }

    method RemoveGrant(hostname: string, kind: Kind, value: string, role: Role)
      modifies this
      ensures View() == AfterRemove(old(View()), Grant(Key(hostname), kind, value, role))
    {
      var g := Grant(Key(hostname), kind, value, role);
      grants := set h | h in grants && !SameKey(h, g);
    }

    /** The grants of one endpoint, in some order. */
    method ListGrants(hostname: string) returns (rows: seq<Grant>)
      ensures forall g :: g in rows <==> g in grants && g.host == Key(hostname)
    {
      rows := [];
      var left := grants;
      while left != {}
        invariant left <= grants
        invariant forall g :: g in rows <==> g in grants - left && g.host == Key(hostname)
        decreases left
      {
        var g :| g in left;
        left := left - {g};
        if g.host == Key(hostname) {
          rows := rows + [g];
        }
      }
    }

    method DirectRoleFor(hostname: string, c: Caller) returns (role: Role)
      ensures role == DirectRole(View(), fold, Key(hostname), c)
    {
      if Key(hostname) !in endpoints {
        return NoRole;
      }
      if SameFolded(fold, endpoints[Key(hostname)].owner, c.email) {
        return Owner;
      }
      var rows := ListGrants(hostname);
      role := NoRole;
      for i := 0 to |rows|
        invariant role == if exists j :: 0 <= j < i && rows[j].role == Access && Matches(fold, rows[j], c)
                          then Access else NoRole
        invariant forall j :: 0 <= j < i && rows[j].role == Owner ==> !Matches(fold, rows[j], c)
      {
        assert rows[i] in rows;
        if Matches(fold, rows[i], c) {
          if rows[i].role == Owner {
            return Owner;
          }
          if rows[i].role == Access {
            role := Access;
          }
        }
      }
      if role == Access {
        var j :| 0 <= j < |rows| && rows[j].role == Access && Matches(fold, rows[j], c);
        assert rows[j] in rows;
      }
    }

    method RoleFor(hostname: string, c: Caller) returns (role: Role)
      ensures role == RoleOf(View(), fold, Key(hostname), c)
    {
      role := DirectRoleFor(hostname, c);
      if role == Owner || Key(hostname) !in endpoints {
        return;
      }
      var ep := endpoints[Key(hostname)];
      var surface := WorkspaceMembershipSurface(ep);
      if surface != "" {
        var parentRole := DirectRoleFor(surface, c);
        if parentRole != NoRole {
          return parentRole;
        }
      }
    }

    function WorkspaceMembershipSurface(ep: Endpoint): (surface: string)
      ensures surface == "" || surface == ep.parent
      ensures surface == "" <==> ep.parent == "" || SameFolded(fold, ep.parent, ep.hostname)
    {
      if ep.parent == "" || SameFolded(fold, ep.parent, ep.hostname) then "" else ep.parent
    }

    /** Adds an address to the listing unless it is blank or there already. */
    method AddOwner(owners: seq<string>, e: string) returns (more: seq<string>)
      ensures more == owners || (more == owners + [TrimSpace(e)] && TrimSpace(e) != "")
      ensures TrimSpace(e) != "" ==> (more == owners <==> Shows(owners, lower, TrimSpace(e)))
    {
      var x := TrimSpace(e);
      if x == "" || exists i :: 0 <= i < |owners| && SameFolded(lower, owners[i], x) {
        return owners;
      }
      more := owners + [x];
    }

    method EndpointOwners(hostname: string) returns (owners: seq<string>)
      ensures Lists(View(), lower, Key(hostname), owners)
    {
      var host := Key(hostname);
      owners := [];
      ghost var seen: set<string> := {};
      if host in endpoints {
        owners := AddOwner(owners, endpoints[host].owner);
        seen := {endpoints[host].owner};
      }
      ghost var slot := owners;
      FirstListed(lower, seen, owners);
      var rows := ListGrants(hostname);
      owners, seen := AddOwners(rows, owners, seen);
      SeenAll(View(), host, rows, seen, if host in endpoints then {endpoints[host].owner} else {});
      ListingLists(View(), lower, host, owners);
    }

    method AddOwners(rows: seq<Grant>, first: seq<string>, ghost before: set<string>)
        returns (owners: seq<string>, ghost seen: set<string>)
      requires Listing(lower, before, first)
      ensures first <= owners && Listing(lower, seen, owners)
      ensures seen == before + OwnersIn(rows)
    {
      owners, seen := first, before;
      for i := 0 to |rows|
        invariant first <= owners && Listing(lower, seen, owners)
        invariant seen == before + OwnersIn(rows[..i])
      {
        var g := rows[i];
        OwnersInNext(rows, i);
        if g.kind == Email && g.role == Owner {
          var more := AddOwner(owners, g.value);
          ListingGrows(lower, seen, owners, more, g.value);
          owners, seen := more, seen + {g.value};
        }
      }
      assert rows[..|rows|] == rows;
    }

    /** Whether the address is listed, and the rest of the listing. */
    method Remaining(listed: seq<string>, e: string) returns (isOwner: bool, remaining: seq<string>)
      ensures remaining == Others(fold, listed, e)
      ensures isOwner <==> |remaining| != |listed|
    {
      remaining, isOwner := [], false;
      for i := 0 to |listed|
        invariant remaining == Others(fold, listed[..i], e)
        invariant |remaining| <= i && (isOwner <==> |remaining| < i)
      {
        OthersNext(fold, listed, i, e);
        if SameFolded(fold, listed[i], e) {
          isOwner := true;
        } else {
          remaining := remaining + [listed[i]];
        }
      }
      assert listed[..|listed|] == listed;
    }

    method RevokeOwnership(hostname: string, email: string) returns (ok: bool, ghost owners: seq<string>)
      modifies this
      ensures Lists(old(View()), lower, Key(hostname), owners)
      ensures Outcome(ok, View()) == AfterRevoke(old(View()), fold, hostname, email, owners)
    {
      var e := TrimSpace(email);
      var listed := EndpointOwners(hostname);
      owners := listed;
      var isOwner, remaining := Remaining(listed, e);
      if !isOwner {
        return true, listed;
      }
      if |remaining| == 0 {
        return false, listed;
      }
      RemoveGrant(hostname, Email, e, Owner);
      ok := true;
      if Key(hostname) in endpoints && SameFolded(fold, endpoints[Key(hostname)].owner, e) {
        ok := SetEndpointOwner(hostname, remaining[0]);
      }
    }

    method ApplyShareAction(hostname: string, form: Form) returns (ok: bool, ghost owners: seq<string>)
      modifies this
      ensures Lists(old(View()), lower, Key(hostname), owners)
      ensures Outcome(ok, View()) == AfterShare(old(View()), fold, hostname, form, owners)
    {
      var listed := EndpointOwners(hostname);
      owners := listed;
      var action := TrimSpace(form.action);
      var kind, value := KindOf(TrimSpace(form.principalType)), TrimSpace(form.principalValue);
      if action == "" || action == "grant" {
        var name := TrimSpace(form.role);
        if name == "" {
          name := "access";
        }
        var role := RoleNamed(name);
        if value == "" || kind == [] || role == [] {
          return false, listed;
        }
        ok := AddGrant(hostname, kind[0], value, role[0]);
      } else if action == "revoke" {
        var role := RoleNamed(TrimSpace(form.role));
        if kind == [Email] && role == [Owner] {
          ok, owners := RevokeOwnership(hostname, value);
        } else {
          if kind != [] && role != [] {
            RemoveGrant(hostname, kind[0], value, role[0]);
          }
          ok := true;
        }
      } else if action == "deny-request" {
        ok := TrimSpace(form.email) != "";
      } else {
        ok := false;
      }
    }
  }

  /** The listing of the addresses seen so far. */
  ghost predicate Listing(lower: char -> char, seen: set<string>, owners: seq<string>) {
    FromSeen(seen, owners) && ShowsAll(lower, seen, owners) && NobodyTwice(lower, owners)
  }

  ghost predicate FromSeen(seen: set<string>, owners: seq<string>) {
    forall i :: 0 <= i < |owners| ==> owners[i] != "" && exists o :: o in seen && owners[i] == TrimSpace(o)
  }

  ghost predicate ShowsAll(lower: char -> char, seen: set<string>, owners: seq<string>) {
    forall o :: o in seen && TrimSpace(o) != "" ==> Shows(owners, lower, TrimSpace(o))
  }

  ghost predicate NobodyTwice(lower: char -> char, owners: seq<string>) {
    forall i, j :: 0 <= i < j < |owners| ==> !SameFolded(lower, owners[i], owners[j])
  }

  /** The owner addresses in a list of rows. */
  ghost function OwnersIn(rows: seq<Grant>): set<string> {
    set g | g in rows && g.kind == Email && g.role == Owner :: g.value
  }

  lemma OwnersInNext(rows: seq<Grant>, i: nat)
    requires i < |rows|
    ensures OwnersIn(rows[..i + 1])
         == OwnersIn(rows[..i]) + if rows[i].kind == Email && rows[i].role == Owner then {rows[i].value} else {}
  {
    assert rows[..i + 1] == rows[..i] + [rows[i]];
  }

  lemma SeenAll(s: State, host: Host, rows: seq<Grant>, seen: set<string>, slot: set<string>)
    requires forall g :: g in rows <==> g in s.grants && g.host == host
    requires seen == slot + OwnersIn(rows)
    requires slot == if host in s.endpoints then {s.endpoints[host].owner} else {}
    ensures seen == EmailOwners(s, host)
  {
  }

  lemma FirstListed(lower: char -> char, seen: set<string>, owners: seq<string>)
    requires seen == {} ==> owners == []
    requires seen != {} ==> exists o :: seen == {o} && owners == if TrimSpace(o) == "" then [] else [TrimSpace(o)]
    ensures Listing(lower, seen, owners)
  {
    if seen != {} {
      var o :| seen == {o} && owners == if TrimSpace(o) == "" then [] else [TrimSpace(o)];
      if TrimSpace(o) != "" {
        assert SameFolded(lower, owners[0], TrimSpace(o));
      }
    }
  }

  lemma ListingGrows(lower: char -> char, seen: set<string>, before: seq<string>, owners: seq<string>, e: string)
    requires Listing(lower, seen, before)
    requires owners == before || (owners == before + [TrimSpace(e)] && TrimSpace(e) != "")
    requires TrimSpace(e) != "" ==> (owners == before <==> Shows(before, lower, TrimSpace(e)))
    ensures Listing(lower, seen + {e}, owners)
  {
    if owners == before {
      assert FromSeen(seen + {e}, owners);
    } else {
      Appended(lower, seen, before, e);
    }
  }

  lemma Appended(lower: char -> char, seen: set<string>, before: seq<string>, e: string)
    requires Listing(lower, seen, before) && TrimSpace(e) != "" && !Shows(before, lower, TrimSpace(e))
    ensures Listing(lower, seen + {e}, before + [TrimSpace(e)])
  {
    AppendedFromSeen(seen, before, e);
    AppendedShows(lower, seen, before, e);
    AppendedTwice(lower, before, TrimSpace(e));
  }

  lemma AppendedFromSeen(seen: set<string>, before: seq<string>, e: string)
    requires FromSeen(seen, before) && TrimSpace(e) != ""
    ensures FromSeen(seen + {e}, before + [TrimSpace(e)])
  {
    var owners := before + [TrimSpace(e)];
    forall i | 0 <= i < |owners|
      ensures owners[i] != "" && exists o :: o in seen + {e} && owners[i] == TrimSpace(o)
    {
      if i < |before| {
        assert owners[i] == before[i];
        var o :| o in seen && before[i] == TrimSpace(o);
        assert o in seen + {e};
      } else {
        assert e in seen + {e};
      }
    }
  }

  lemma AppendedShows(lower: char -> char, seen: set<string>, before: seq<string>, e: string)
    requires ShowsAll(lower, seen, before)
    ensures ShowsAll(lower, seen + {e}, before + [TrimSpace(e)])
  {
    forall o | o in seen + {e} && TrimSpace(o) != ""
      ensures Shows(before + [TrimSpace(e)], lower, TrimSpace(o))
    {
      StillShown(lower, before, TrimSpace(e), TrimSpace(o));
    }
  }

  lemma AppendedTwice(lower: char -> char, before: seq<string>, x: string)
    requires NobodyTwice(lower, before) && !Shows(before, lower, x)
    ensures NobodyTwice(lower, before + [x])
  {
  }

  lemma ListingLists(s: State, lower: char -> char, host: Host, owners: seq<string>)
    requires Listing(lower, EmailOwners(s, host), owners)
    requires host in s.endpoints && TrimSpace(s.endpoints[host].owner) != ""
             ==> owners != [] && owners[0] == TrimSpace(s.endpoints[host].owner)
    ensures Lists(s, lower, host, owners)
  {
    assert FromSeen(EmailOwners(s, host), owners);
    assert NobodyTwice(lower, owners) && ShowsAll(lower, EmailOwners(s, host), owners);
  }

  lemma StillShown(lower: char -> char, before: seq<string>, x: string, y: string)
    requires y == x || Shows(before, lower, y)
    ensures Shows(before + [x], lower, y)
  {
    var owners := before + [x];
    if Shows(before, lower, y) {
      var i :| 0 <= i < |before| && SameFolded(lower, before[i], y);
      assert owners[i] == before[i];
    } else {
      assert SameFolded(lower, owners[|before|], y);
    }
  }

  lemma {:induction false} OthersNext(fold: char -> char, owners: seq<string>, i: nat, email: string)
    requires i < |owners|
    ensures Others(fold, owners[..i + 1], email)
         == Others(fold, owners[..i], email) + if SameFolded(fold, owners[i], email) then [] else [owners[i]]
  {
    OthersJoin(fold, owners[..i], [owners[i]], email);
    assert owners[..i + 1] == owners[..i] + [owners[i]];
  }

  lemma {:induction false} OthersJoin(fold: char -> char, a: seq<string>, b: seq<string>, email: string)
    ensures Others(fold, a + b, email) == Others(fold, a, email) + Others(fold, b, email)
  {
    if a == [] {
      assert a + b == b;
    } else {
      assert (a + b)[1..] == a[1..] + b;
      OthersJoin(fold, a[1..], b, email);
    }
  }
}
