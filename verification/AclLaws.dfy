/** What the rows mean for a caller, said of the rows themselves. */
module AclLaws {
  import opened Text
  import opened Acl

  /** At least this much; r is Access or Owner. */
  predicate AtLeast(role: Role, r: Role) {
    role == Owner || role == r
  }

  // ------------------------------------------------------------------- roles

  /** The grant is to the caller's address, ignoring case. */
  ghost predicate NamesEmail(fold: char -> char, g: Grant, c: Caller) {
    g.kind == Email && SameFolded(fold, g.value, c.email)
  }

  /** The grant is to one of the caller's groups, without the white space around it and ignoring case. */
  ghost predicate NamesGroup(fold: char -> char, g: Grant, c: Caller) {
    g.kind == Group && exists i :: 0 <= i < |c.groups| && SameFolded(fold, TrimSpace(c.groups[i]), g.value)
  }

  ghost predicate GivenBy(s: State, fold: char -> char, host: Host, c: Caller, r: Role, g: Grant) {
    g in s.grants && g.host == host && AtLeast(g.role, r) && (NamesEmail(fold, g, c) || NamesGroup(fold, g, c))
  }

  /** The direct role is what the slot gives, or a grant to the address or to a group of the caller. */
  lemma DirectLaw(s: State, fold: char -> char, host: Host, c: Caller, r: Role)
    requires r != NoRole
    ensures AtLeast(DirectRole(s, fold, host, c), r)
       <==> host in s.endpoints && (SameFolded(fold, s.endpoints[host].owner, c.email)
                                    || exists g :: GivenBy(s, fold, host, c, r, g))
  {
    forall g
      ensures Matches(fold, g, c) <==> NamesEmail(fold, g, c) || NamesGroup(fold, g, c)
    {
    }
    hide Matches, NamesEmail, NamesGroup, SameFolded;
    if g :| GivenBy(s, fold, host, c, r, g) {
      assert Granted(s, fold, host, c, g.role);
    }
    if Granted(s, fold, host, c, Owner) {
      var g :| g in s.grants && g.host == host && g.role == Owner && Matches(fold, g, c);
      assert GivenBy(s, fold, host, c, r, g);
    }
    if r == Access && Granted(s, fold, host, c, Access) {
      var g :| g in s.grants && g.host == host && g.role == Access && Matches(fold, g, c);
      assert GivenBy(s, fold, host, c, r, g);
    }
  }

  /** Where all grants are to groups, somebody who is not recorded has a role through the groups he is in only. */
  lemma GroupsOnly(s: State, fold: char -> char, host: Host, c: Caller, r: Role)
    requires r != NoRole && host in s.endpoints && !SameFolded(fold, s.endpoints[host].owner, c.email)
    requires forall g :: g in s.grants && g.host == host ==> g.kind == Group
    ensures AtLeast(DirectRole(s, fold, host, c), r)
       <==> exists g, i :: && g in s.grants && g.host == host && AtLeast(g.role, r) && 0 <= i < |c.groups|
                           && SameFolded(fold, TrimSpace(c.groups[i]), g.value)
  {
    DirectLaw(s, fold, host, c, r);
    if exists g, i :: && g in s.grants && g.host == host && AtLeast(g.role, r) && 0 <= i < |c.groups|
                      && SameFolded(fold, TrimSpace(c.groups[i]), g.value) {
      var g, i :| && g in s.grants && g.host == host && AtLeast(g.role, r) && 0 <= i < |c.groups|
                  && SameFolded(fold, TrimSpace(c.groups[i]), g.value);
      assert NamesGroup(fold, g, c);
      assert GivenBy(s, fold, host, c, r, g);
    }
  }

  /** Where all grants are to addresses, the groups do not matter. */
  lemma EmailsOnly(s: State, fold: char -> char, host: Host, c: Caller, r: Role)
    requires r != NoRole && host in s.endpoints
    requires forall g :: g in s.grants && g.host == host ==> g.kind == Email
    ensures AtLeast(DirectRole(s, fold, host, c), r)
       <==> SameFolded(fold, s.endpoints[host].owner, c.email)
            || exists g :: g in s.grants && g.host == host && AtLeast(g.role, r) && SameFolded(fold, g.value, c.email)
  {
    DirectLaw(s, fold, host, c, r);
    if g :| g in s.grants && g.host == host && AtLeast(g.role, r) && SameFolded(fold, g.value, c.email) {
      assert GivenBy(s, fold, host, c, r, g);
    }
  }

  /** Who is named nowhere has no role. */
  lemma Outsider(s: State, fold: char -> char, host: Host, c: Caller)
    requires host in s.endpoints ==> !SameFolded(fold, s.endpoints[host].owner, c.email)
    requires forall g :: g in s.grants && g.host == host ==> !NamesEmail(fold, g, c) && !NamesGroup(fold, g, c)
    ensures DirectRole(s, fold, host, c) == NoRole
  {
    DirectLaw(s, fold, host, c, Access);
    DirectLaw(s, fold, host, c, Owner);
  }

  /** A role comes from the endpoint or from its one parent, which is not itself. */
  lemma RoleLaw(s: State, fold: char -> char, host: Host, c: Caller, r: Role)
    requires r != NoRole
    ensures AtLeast(RoleOf(s, fold, host, c), r)
       <==> || AtLeast(DirectRole(s, fold, host, c), r)
            || (&& host in s.endpoints && s.endpoints[host].parent != ""
                && !SameFolded(fold, s.endpoints[host].parent, s.endpoints[host].hostname)
                && AtLeast(DirectRole(s, fold, Key(s.endpoints[host].parent), c), r))
  {
    hide SameFolded, DirectRole;
  }

  // ------------------------------------------------------------------- hosts

  /** The two characters are the same but for the case of an ASCII letter. */
  predicate SameLetter(c: char, d: char) {
    || c == d
    || ('A' <= c <= 'Z' && 'a' <= d <= 'z' && d as int - c as int == 'a' as int - 'A' as int)
    || ('A' <= d <= 'Z' && 'a' <= c <= 'z' && c as int - d as int == 'a' as int - 'A' as int)
  }

  /** Two host names are one exactly when they differ in the case of ASCII letters at most. */
  lemma KeyLaw(a: string, b: string)
    ensures Key(a) == Key(b) <==> |a| == |b| && forall i :: 0 <= i < |a| ==> SameLetter(a[i], b[i])
  {
    forall c, d
      ensures AsciiLower(c) == AsciiLower(d) <==> SameLetter(c, d)
    {
    }
    hide AsciiLower, SameLetter;
    var x, y := Nocase(a), Nocase(b);
    assert Key(a) == Key(b) <==> x == y;
    assert forall i :: 0 <= i < |a| ==> x[i] == AsciiLower(a[i]);
    assert forall i :: 0 <= i < |b| ==> y[i] == AsciiLower(b[i]);
    if x == y {
      assert |a| == |x| == |b|;
      assert forall i :: 0 <= i < |a| ==> x[i] == y[i];
    }
    if |a| == |b| && forall i :: 0 <= i < |a| ==> SameLetter(a[i], b[i]) {
      assert x == y;
    }
  }

  // ------------------------------------------------------------ registering

  /** A new endpoint has the name and the owner given, without the white space around them; an old one stays. */
  lemma RegisterLaw(s: State, hostname: string, owner: string, parent: string, host: Host)
    ensures var t, name, email := AfterRegister(s, hostname, owner, parent), TrimSpace(hostname), TrimSpace(owner);
            && t.grants == s.grants
            && (host in t.endpoints
                <==> host in s.endpoints || (host == Key(name) && name != "" && email != ""))
            && (host in s.endpoints ==> t.endpoints[host] == s.endpoints[host])
            && (host in t.endpoints && host !in s.endpoints
                ==> t.endpoints[host] == Endpoint(name, email, parent))
  {
  }

  /** So whoever registers a new endpoint owns it. */
  lemma RegistrantOwns(s: State, fold: char -> char, hostname: string, owner: string, parent: string, groups: seq<string>)
    requires TrimSpace(hostname) != "" && TrimSpace(owner) != "" && Key(TrimSpace(hostname)) !in s.endpoints
    ensures DirectRole(AfterRegister(s, hostname, owner, parent), fold, Key(TrimSpace(hostname)),
                       Caller(TrimSpace(owner), groups)) == Owner
  {
    DirectLaw(AfterRegister(s, hostname, owner, parent), fold, Key(TrimSpace(hostname)),
              Caller(TrimSpace(owner), groups), Owner);
  }

  // ------------------------------------------------------------ share actions

  ghost predicate IsKind(text: string, kind: Kind) {
    (text == "email" && kind == Email) || (text == "group" && kind == Group)
  }

  /** A grant form that names no role asks for access. */
  ghost predicate IsRole(text: string, role: Role) {
    (text == "owner" && role == Owner) || (text == "access" && role == Access)
  }

  /** Granting: it succeeds exactly for an address or a group, a role that exists, a value and a known endpoint, and
      then everybody so named has at least that role, and nobody else's row is touched. */
  lemma GrantForm(s: State, fold: char -> char, hostname: string, form: Form, owners: seq<string>)
    requires TrimSpace(form.action) == "" || TrimSpace(form.action) == "grant"
    ensures var o := AfterShare(s, fold, hostname, form, owners);
            var role := if TrimSpace(form.role) == "" then "access" else TrimSpace(form.role);
            && o.state.endpoints == s.endpoints && s.grants <= o.state.grants
            && (o.ok <==> TrimSpace(form.principalValue) != "" && Key(hostname) in s.endpoints
                          && TrimSpace(form.principalType) in {"email", "group"} && role in {"access", "owner"})
            && (!o.ok ==> o.state == s)
            && forall kind, r :: o.ok && IsKind(TrimSpace(form.principalType), kind) && IsRole(role, r) ==>
                 var g := Grant(Key(hostname), kind, TrimSpace(form.principalValue), r);
                 && o.state.grants <= s.grants + {g}
                 && exists h :: h in o.state.grants && SameKey(h, g)
  {
    var o := AfterShare(s, fold, hostname, form, owners);
    var role := if TrimSpace(form.role) == "" then "access" else TrimSpace(form.role);
    forall kind, r | o.ok && IsKind(TrimSpace(form.principalType), kind) && IsRole(role, r)
      ensures var g := Grant(Key(hostname), kind, TrimSpace(form.principalValue), r);
              && o.state == AfterGrant(s, g)
              && exists h :: h in o.state.grants && SameKey(h, g)
    {
      var g := Grant(Key(hostname), kind, TrimSpace(form.principalValue), r);
      assert o.state == AfterGrant(s, g);
      assert g in o.state.grants || exists h :: h in s.grants && SameKey(h, g);
    }
  }

  ghost predicate Revoked(hostname: string, form: Form, h: Grant) {
    && h.host == Key(hostname) && IsKind(TrimSpace(form.principalType), h.kind)
    && IsRole(TrimSpace(form.role), h.role) && Nocase(h.value) == Nocase(TrimSpace(form.principalValue))
  }

  /** Revoking anything but an address's ownership drops exactly the rows with that key. */
  lemma RevokeForm(s: State, fold: char -> char, hostname: string, form: Form, owners: seq<string>)
    requires TrimSpace(form.action) == "revoke"
    requires !(TrimSpace(form.principalType) == "email" && TrimSpace(form.role) == "owner")
    ensures var o := AfterShare(s, fold, hostname, form, owners);
            && o.ok && o.state.endpoints == s.endpoints
            && forall h :: h in o.state.grants <==> (h in s.grants && !Revoked(hostname, form, h))
  {
  }

  /** Revoking an address's ownership is the revocation of an owner; the other actions change nothing. */
  lemma OtherForms(s: State, fold: char -> char, hostname: string, form: Form, owners: seq<string>)
    requires TrimSpace(form.action) !in {"", "grant"}
    ensures var o := AfterShare(s, fold, hostname, form, owners);
            && (TrimSpace(form.action) == "revoke" && TrimSpace(form.principalType) == "email"
                && TrimSpace(form.role) == "owner"
                ==> o == AfterRevoke(s, fold, hostname, TrimSpace(form.principalValue), owners))
            && (TrimSpace(form.action) != "revoke" ==> o.state == s)
            && (TrimSpace(form.action) != "revoke" ==>
                  (o.ok <==> TrimSpace(form.action) == "deny-request" && TrimSpace(form.email) != ""))
  {
  }
}
