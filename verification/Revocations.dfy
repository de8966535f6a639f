/** What revoking an owner does, in whatever order the database lists the grants. */
module Revocations {
  import opened Text
  import opened Acl
  import opened AclRuns

  ghost predicate Owns(s: State, fold: char -> char, host: Host, email: string) {
    exists o :: o in EmailOwners(s, host) && SameFolded(fold, o, email)
  }

  ghost predicate SomeoneElseOwns(s: State, fold: char -> char, host: Host, email: string) {
    exists o :: o in EmailOwners(s, host) && !SameFolded(fold, o, email)
  }

  ghost predicate Aliased(s: State, fold: char -> char, host: Host, email: string) {
    exists g :: g in s.grants && g.host == host && g.kind == Email && g.role == Owner
                && SameFolded(fold, g.value, email) && Nocase(g.value) != Nocase(email)
  }

  ghost function WithoutOwner(s: State, fold: char -> char, host: Host, email: string): set<string> {
    set o | o in EmailOwners(s, host) && !SameFolded(fold, o, email)
  }

  /** When the listing shows the address and somebody else. */
  lemma RevokeShown(s: State, fold: char -> char, lower: char -> char, hostname: string, email: string,
                    owners: seq<string>)
    requires Inv(s) && Folding(fold) && Lists(s, lower, Key(hostname), owners)
    requires var rest := Others(fold, owners, TrimSpace(email)); rest != [] && |rest| != |owners|
    ensures AfterRevoke(s, fold, hostname, email, owners).ok
    ensures EmailOwners(AfterRevoke(s, fold, hostname, email, owners).state, Key(hostname))
         == WithoutOwner(s, fold, Key(hostname), TrimSpace(email))
       <==> !Aliased(s, fold, Key(hostname), TrimSpace(email))
  {
    hide AfterRevoke, Lists, Others, TrimSpace, Inv, SameFolded, Folding;
    var e, host := TrimSpace(email), Key(hostname);
    var t := AfterRevoke(s, fold, hostname, email, owners).state;
    RevokeLeaves(s, fold, lower, hostname, email, owners);
    Heir(s, fold, lower, host, owners, e);
    if Aliased(s, fold, host, e) {
      var g :| g in s.grants && g.host == host && g.kind == Email && g.role == Owner
               && SameFolded(fold, g.value, e) && Nocase(g.value) != Nocase(e);
      assert g in t.grants && g.value in EmailOwners(t, host);
    } else {
      forall o
        ensures o in EmailOwners(t, host) <==> o in WithoutOwner(s, fold, host, e)
      {
        StaysOwner(s, fold, host, e, t, o, Others(fold, owners, e)[0]);
      }
    }
  }

  lemma StaysOwner(s: State, fold: char -> char, host: Host, e: string, t: State, o: string, heir: string)
    requires Inv(s) && Folding(fold) && host in s.endpoints && !Aliased(s, fold, host, e)
    requires t.grants == (set g | g in s.grants && !SameKey(g, Grant(host, Email, e, Owner)))
    requires t.endpoints == if SameFolded(fold, s.endpoints[host].owner, e)
                            then s.endpoints[host := s.endpoints[host].(owner := heir)] else s.endpoints
    requires heir in EmailOwners(s, host) && !SameFolded(fold, heir, e)
    ensures o in EmailOwners(t, host) <==> o in WithoutOwner(s, fold, host, e)
  {
    forall g | g in s.grants && g.host == host && g.kind == Email && g.role == Owner
      ensures g in t.grants <==> !SameFolded(fold, g.value, e)
    {
      if Nocase(g.value) == Nocase(e) {
        FoldsLetters(fold, g.value, e);
      }
    }
    if o in WithoutOwner(s, fold, host, e) && o != s.endpoints[host].owner {
      var g :| g in s.grants && g.host == host && g.kind == Email && g.role == Owner && g.value == o;
      assert g in t.grants;
    }
  }

  lemma LeftOver(s: State, fold: char -> char, host: Host, e: string, t: State)
    requires Folding(fold) && host in t.endpoints && !SameFolded(fold, t.endpoints[host].owner, e)
    requires t.grants == (set g | g in s.grants && !SameKey(g, Grant(host, Email, e, Owner)))
    ensures DirectRole(t, fold, host, Caller(e, [])) == Owner <==> Aliased(s, fold, host, e)
  {
    var c := Caller(e, []);
    if Aliased(s, fold, host, e) {
      var g :| g in s.grants && g.host == host && g.kind == Email && g.role == Owner
               && SameFolded(fold, g.value, e) && Nocase(g.value) != Nocase(e);
      assert g in t.grants && Matches(fold, g, c);
    }
    if Granted(t, fold, host, c, Owner) {
      var g :| g in t.grants && g.host == host && g.role == Owner && Matches(fold, g, c);
      assert g in s.grants;
    }
  }

  /** Nothing changes for the other endpoints. */
  lemma RevokeElsewhere(s: State, fold: char -> char, lower: char -> char, hostname: string, email: string,
                        owners: seq<string>, host: Host)
    requires Inv(s) && Lists(s, lower, Key(hostname), owners) && host != Key(hostname)
    ensures EmailOwners(AfterRevoke(s, fold, hostname, email, owners).state, host) == EmailOwners(s, host)
  {
    var t := AfterRevoke(s, fold, hostname, email, owners).state;
    var rest := Others(fold, owners, TrimSpace(email));
    if rest != [] && |rest| != |owners| {
      RevokeLeaves(s, fold, lower, hostname, email, owners);
      SameRowsSameOwners(s, t, host);
    }
  }

  lemma SameRowsSameOwners(s: State, t: State, host: Host)
    requires host in s.endpoints <==> host in t.endpoints
    requires host in s.endpoints ==> s.endpoints[host] == t.endpoints[host]
    requires forall g: Grant :: g.host == host ==> (g in s.grants <==> g in t.grants)
    ensures EmailOwners(s, host) == EmailOwners(t, host)
  {
  }

  lemma {:induction false} OthersKeepsAll(fold: char -> char, owners: seq<string>, email: string)
    ensures |Others(fold, owners, email)| <= |owners|
    ensures |Others(fold, owners, email)| == |owners|
       <==> forall i :: 0 <= i < |owners| ==> !SameFolded(fold, owners[i], email)
    ensures Others(fold, owners, email) == []
       <==> forall i :: 0 <= i < |owners| ==> SameFolded(fold, owners[i], email)
  {
    if owners != [] {
      OthersKeepsAll(fold, owners[1..], email);
      assert owners == [owners[0]] + owners[1..];
    }
  }

  // ------------------------------------------------------------ one listing

  /** The listing has the address, in some spelling the program takes for it. */
  ghost predicate Listed(owners: seq<string>, fold: char -> char, email: string) {
    exists i :: 0 <= i < |owners| && SameFolded(fold, owners[i], email)
  }

  ghost predicate OtherListed(owners: seq<string>, fold: char -> char, email: string) {
    exists i :: 0 <= i < |owners| && !SameFolded(fold, owners[i], email)
  }

  /** The call succeeds, and exactly the address is gone from the owners. */
  ghost predicate Revokes(s: State, fold: char -> char, hostname: string, email: string, owners: seq<string>) {
    var t, host := AfterRevoke(s, fold, hostname, email, owners), Key(hostname);
    t.ok && EmailOwners(t.state, host) == WithoutOwner(s, fold, host, TrimSpace(email))
  }

  lemma ListedOwns(s: State, fold: char -> char, lower: char -> char, host: Host, owners: seq<string>, e: string)
    requires Inv(s) && Lists(s, lower, host, owners)
    ensures Listed(owners, fold, e) ==> Owns(s, fold, host, e)
    ensures OtherListed(owners, fold, e) ==> SomeoneElseOwns(s, fold, host, e)
  {
    forall i | 0 <= i < |owners|
      ensures owners[i] in EmailOwners(s, host)
    {
      ListedIsOwner(s, lower, host, owners, i);
    }
  }

  /** What the branches of the program come to. */
  lemma Branches(s: State, fold: char -> char, hostname: string, email: string, owners: seq<string>)
    ensures var e := TrimSpace(email);
            && (Listed(owners, fold, e) && OtherListed(owners, fold, e)
                <==> Others(fold, owners, e) != [] && |Others(fold, owners, e)| != |owners|)
            && (!Listed(owners, fold, e) ==> AfterRevoke(s, fold, hostname, email, owners) == Outcome(true, s))
            && (Listed(owners, fold, e) && !OtherListed(owners, fold, e)
                ==> AfterRevoke(s, fold, hostname, email, owners) == Outcome(false, s))
  {
    OthersKeepsAll(fold, owners, TrimSpace(email));
  }

  /** For one listing: the revocation does what it is for exactly when the listing shows the address and somebody else,
      and no owner grant spells the address in a way only the program folds. */
  lemma RevokeListed(s: State, fold: char -> char, lower: char -> char, hostname: string, email: string,
                     owners: seq<string>)
    requires Inv(s) && Folding(fold) && Lists(s, lower, Key(hostname), owners)
    requires Owns(s, fold, Key(hostname), TrimSpace(email))
    ensures var e, host := TrimSpace(email), Key(hostname);
            Revokes(s, fold, hostname, email, owners)
            <==> Listed(owners, fold, e) && OtherListed(owners, fold, e) && !Aliased(s, fold, host, e)
  {
    hide AfterRevoke, Lists, Others, TrimSpace, Inv, SameFolded, Folding, Listed, OtherListed, Aliased, EmailOwners;
    var e, host := TrimSpace(email), Key(hostname);
    Branches(s, fold, hostname, email, owners);
    if Listed(owners, fold, e) && OtherListed(owners, fold, e) {
      RevokeShown(s, fold, lower, hostname, email, owners);
    } else {
      var o :| o in EmailOwners(s, host) && SameFolded(fold, o, e);
      assert o !in WithoutOwner(s, fold, host, e);
    }
  }

  lemma OwnerRole(s: State, fold: char -> char, host: Host, e: string)
    requires Inv(s)
    ensures DirectRole(s, fold, host, Caller(e, [])) == Owner <==> Owns(s, fold, host, e)
  {
    var c := Caller(e, []);
    if Granted(s, fold, host, c, Owner) {
      var g :| g in s.grants && g.host == host && g.role == Owner && Matches(fold, g, c);
      assert g.value in EmailOwners(s, host);
    }
    if Owns(s, fold, host, e) {
      var o :| o in EmailOwners(s, host) && SameFolded(fold, o, e);
      OwnerHasEndpoint(s, host, o);
      if o != s.endpoints[host].owner {
        var g :| g in s.grants && g.host == host && g.kind == Email && g.role == Owner && g.value == o;
        assert Matches(fold, g, c);
      }
    }
  }

  /** So the address has the owner role afterwards exactly when it had it and one of these three things is missing. */
  lemma RevokedRole(s: State, fold: char -> char, lower: char -> char, hostname: string, email: string,
                    owners: seq<string>)
    requires Inv(s) && Folding(fold) && Lists(s, lower, Key(hostname), owners)
    ensures var e, host := TrimSpace(email), Key(hostname);
            DirectRole(AfterRevoke(s, fold, hostname, email, owners).state, fold, host, Caller(e, [])) == Owner
            <==> Owns(s, fold, host, e)
                 && !(Listed(owners, fold, e) && OtherListed(owners, fold, e) && !Aliased(s, fold, host, e))
  {
    hide AfterRevoke, Lists, Others, TrimSpace, Inv, SameFolded, Folding, Listed, OtherListed, Aliased, EmailOwners;
    hide DirectRole, Owns;
    var e, host := TrimSpace(email), Key(hostname);
    Branches(s, fold, hostname, email, owners);
    ListedOwns(s, fold, lower, host, owners, e);
    OwnerRole(s, fold, host, e);
    if Listed(owners, fold, e) && OtherListed(owners, fold, e) {
      RevokeLeaves(s, fold, lower, hostname, email, owners);
      Heir(s, fold, lower, host, owners, e);
      LeftOver(s, fold, host, e, AfterRevoke(s, fold, hostname, email, owners).state);
    }
  }

  // ------------------------------------------------------------ every listing

  /** A spelling that some listing shows: of those that lower alike, the recorded owner comes first. */
  ghost predicate Showable(s: State, lower: char -> char, host: Host, p: string)
    requires host in s.endpoints
  {
    p in EmailOwners(s, host) && (SameFolded(lower, p, s.endpoints[host].owner) ==> p == s.endpoints[host].owner)
  }

  /** Whichever spelling a listing shows for this owner, it is, or it is not, one of the address. */
  ghost predicate AllSpelled(s: State, fold: char -> char, lower: char -> char, host: Host, e: string, o: string, so: bool)
    requires host in s.endpoints
  {
    forall p :: Showable(s, lower, host, p) && SameFolded(lower, o, p) ==> SameFolded(fold, p, e) == so
  }

  /** Some owner for whom every listing shows a spelling of the address. */
  ghost predicate SurelyListed(s: State, fold: char -> char, lower: char -> char, host: Host, e: string)
    requires host in s.endpoints
  {
    exists o :: o in EmailOwners(s, host) && AllSpelled(s, fold, lower, host, e, o, true)
  }

  /** Some owner for whom every listing shows something else. */
  ghost predicate SurelyOther(s: State, fold: char -> char, lower: char -> char, host: Host, e: string)
    requires host in s.endpoints
  {
    exists o :: o in EmailOwners(s, host) && AllSpelled(s, fold, lower, host, e, o, false)
  }

  lemma Alike(lower: char -> char, a: string, b: string, c: string)
    requires SameFolded(lower, a, b)
    ensures SameFolded(lower, b, a)
    ensures SameFolded(lower, b, c) <==> SameFolded(lower, a, c)
    ensures SameFolded(lower, c, a) <==> SameFolded(lower, c, b)
  {
  }

  lemma OwnersAreTidy(s: State, host: Host, o: string)
    requires Inv(s) && o in EmailOwners(s, host)
    ensures o != "" && TrimSpace(o) == o
  {
    if host in s.endpoints {
      assert GoodEndpoint(host, s.endpoints[host]);
    }
    assert Tidy(o);
    TrimTidy(o);
  }

  /** Every listing shows a spelling for every owner. */
  lemma ShownFor(s: State, lower: char -> char, host: Host, owners: seq<string>, o: string) returns (p: string)
    requires Inv(s) && host in s.endpoints && Lists(s, lower, host, owners) && o in EmailOwners(s, host)
    ensures p in owners && Showable(s, lower, host, p) && SameFolded(lower, o, p)
  {
    hide TrimSpace;
    var slot := s.endpoints[host].owner;
    OwnersAreTidy(s, host, o);
    OwnersAreTidy(s, host, slot);
    assert Shows(owners, lower, TrimSpace(o));
    var i :| 0 <= i < |owners| && SameFolded(lower, owners[i], o);
    ListedIsOwner(s, lower, host, owners, i);
    p := owners[i];
    Alike(lower, p, o, o);
    if SameFolded(lower, p, slot) && i > 0 {
      Alike(lower, p, slot, slot);
    }
  }

  /** A listing, as far as it shows the owners that are not still to do. */
  ghost predicate Partial(s: State, lower: char -> char, host: Host, allowed: set<string>, owners: seq<string>,
                          todo: set<string>)
    requires host in s.endpoints
  {
    && owners != [] && owners[0] == s.endpoints[host].owner
    && (forall i :: 0 <= i < |owners| ==> owners[i] in allowed && owners[i] in EmailOwners(s, host))
    && (forall o :: o in EmailOwners(s, host) && o !in todo ==> Shows(owners, lower, o))
    && (forall i, j :: 0 <= i < j < |owners| ==> !SameFolded(lower, owners[i], owners[j]))
  }

  lemma ShowsMore(owners: seq<string>, lower: char -> char, p: string, x: string)
    ensures Shows(owners, lower, x) ==> Shows(owners + [p], lower, x)
    ensures SameFolded(lower, p, x) ==> Shows(owners + [p], lower, x)
  {
    var more := owners + [p];
    if Shows(owners, lower, x) {
      var i :| 0 <= i < |owners| && SameFolded(lower, owners[i], x);
      assert more[i] == owners[i];
    }
    assert more[|owners|] == p;
  }

  lemma Longer(s: State, lower: char -> char, host: Host, allowed: set<string>, owners: seq<string>, todo: set<string>,
               o: string, p: string)
    requires host in s.endpoints && Partial(s, lower, host, allowed, owners, todo)
    requires p in allowed && p in EmailOwners(s, host) && SameFolded(lower, o, p) && !Shows(owners, lower, o)
    ensures Partial(s, lower, host, allowed, owners + [p], todo - {o})
  {
    hide SameFolded;
    forall i | 0 <= i < |owners|
      ensures !SameFolded(lower, owners[i], p)
    {
      Alike(lower, o, p, owners[i]);
    }
    forall x | x in EmailOwners(s, host) && x !in todo - {o}
      ensures Shows(owners + [p], lower, x)
    {
      ShowsMore(owners, lower, p, x);
      Alike(lower, o, p, p);
    }
  }

  lemma NothingToDo(s: State, lower: char -> char, host: Host, allowed: set<string>, owners: seq<string>,
                    todo: set<string>, o: string)
    requires host in s.endpoints && Partial(s, lower, host, allowed, owners, todo)
    requires o !in EmailOwners(s, host) || Shows(owners, lower, o)
    ensures Partial(s, lower, host, allowed, owners, todo - {o})
  {
    hide SameFolded, Shows, EmailOwners;
  }

  /** If for every owner some spelling is allowed that a listing can show, a listing shows allowed ones only. */
  lemma {:induction false} Completed(s: State, lower: char -> char, host: Host, allowed: set<string>,
                                     owners: seq<string>, todo: set<string>) returns (all: seq<string>)
    requires host in s.endpoints && Partial(s, lower, host, allowed, owners, todo)
    requires forall o :: o in EmailOwners(s, host) ==> Choice(s, lower, host, allowed, o)
    ensures Partial(s, lower, host, allowed, all, {})
    decreases todo
  {
    hide SameFolded, Shows, Partial, EmailOwners;
    if todo == {} {
      all := owners;
    } else {
      var o :| o in todo;
      if o in EmailOwners(s, host) && !Shows(owners, lower, o) {
        assert Choice(s, lower, host, allowed, o);
        var p :| p in allowed && Showable(s, lower, host, p) && SameFolded(lower, o, p);
        Longer(s, lower, host, allowed, owners, todo, o, p);
        all := Completed(s, lower, host, allowed, owners + [p], todo - {o});
      } else {
        NothingToDo(s, lower, host, allowed, owners, todo, o);
        all := Completed(s, lower, host, allowed, owners, todo - {o});
      }
    }
  }

  ghost predicate Choice(s: State, lower: char -> char, host: Host, allowed: set<string>, o: string)
    requires host in s.endpoints
  {
    exists p :: p in allowed && Showable(s, lower, host, p) && SameFolded(lower, o, p)
  }

  lemma PartialLists(s: State, lower: char -> char, host: Host, allowed: set<string>, owners: seq<string>)
    requires Inv(s) && host in s.endpoints && Partial(s, lower, host, allowed, owners, {})
    ensures Lists(s, lower, host, owners)
  {
    hide TrimSpace, SameFolded, Shows;
    forall o | o in EmailOwners(s, host)
      ensures o != "" && TrimSpace(o) == o
    {
      OwnersAreTidy(s, host, o);
    }
    forall i | 0 <= i < |owners|
      ensures owners[i] != "" && IsTrimmedOwner(s, host, owners[i])
    {
      assert owners[i] in EmailOwners(s, host);
    }
  }

  lemma SlotFirst(s: State, lower: char -> char, host: Host, allowed: set<string>)
    requires host in s.endpoints && Choice(s, lower, host, allowed, s.endpoints[host].owner)
    ensures var slot := s.endpoints[host].owner;
            Partial(s, lower, host, allowed, [slot], EmailOwners(s, host) - {slot})
  {
    var slot := s.endpoints[host].owner;
    var p :| p in allowed && Showable(s, lower, host, p) && SameFolded(lower, slot, p);
    Alike(lower, slot, p, p);
    assert SameFolded(lower, [slot][0], slot);
    assert Shows([slot], lower, slot);
  }

  lemma SomeListing(s: State, lower: char -> char, host: Host, allowed: set<string>) returns (owners: seq<string>)
    requires Inv(s) && host in s.endpoints
    requires forall o :: o in EmailOwners(s, host) ==> Choice(s, lower, host, allowed, o)
    ensures Lists(s, lower, host, owners) && forall i :: 0 <= i < |owners| ==> owners[i] in allowed
  {
    hide Choice, Lists, Inv, SameFolded;
    var slot := s.endpoints[host].owner;
    assert slot in EmailOwners(s, host);
    SlotFirst(s, lower, host, allowed);
    owners := Completed(s, lower, host, allowed, [slot], EmailOwners(s, host) - {slot});
    PartialLists(s, lower, host, allowed, owners);
  }

  /** There is a listing, for any rows. */
  lemma AnyListing(s: State, lower: char -> char, host: Host) returns (owners: seq<string>)
    requires Inv(s) && host in s.endpoints
    ensures Lists(s, lower, host, owners)
  {
    var all := EmailOwners(s, host);
    forall o | o in all
      ensures Choice(s, lower, host, all, o)
    {
      var p := if SameFolded(lower, o, s.endpoints[host].owner) then s.endpoints[host].owner else o;
      assert p in all && Showable(s, lower, host, p) && SameFolded(lower, o, p);
    }
    owners := SomeListing(s, lower, host, all);
  }

  lemma SureIsListed(s: State, fold: char -> char, lower: char -> char, host: Host, e: string, owners: seq<string>)
    requires Inv(s) && host in s.endpoints && Lists(s, lower, host, owners)
    ensures SurelyListed(s, fold, lower, host, e) ==> Listed(owners, fold, e)
    ensures SurelyOther(s, fold, lower, host, e) ==> OtherListed(owners, fold, e)
  {
    hide SameFolded, Lists, Inv, Showable;
    if SurelyListed(s, fold, lower, host, e) {
      var o :| o in EmailOwners(s, host) && AllSpelled(s, fold, lower, host, e, o, true);
      var p := ShownFor(s, lower, host, owners, o);
    }
    if SurelyOther(s, fold, lower, host, e) {
      var o :| o in EmailOwners(s, host) && AllSpelled(s, fold, lower, host, e, o, false);
      var p := ShownFor(s, lower, host, owners, o);
    }
  }

  /** The owners in a spelling of the address, or the others. */
  ghost function Spelled(s: State, fold: char -> char, host: Host, e: string, so: bool): set<string> {
    set p | p in EmailOwners(s, host) && SameFolded(fold, p, e) == so
  }

  lemma UnsureChoice(s: State, fold: char -> char, lower: char -> char, host: Host, e: string, o: string, so: bool)
    requires host in s.endpoints && o in EmailOwners(s, host) && !AllSpelled(s, fold, lower, host, e, o, !so)
    ensures Choice(s, lower, host, Spelled(s, fold, host, e, so), o)
  {
    hide SameFolded;
    var p :| Showable(s, lower, host, p) && SameFolded(lower, o, p) && SameFolded(fold, p, e) != !so;
    assert p in Spelled(s, fold, host, e, so);
  }

  lemma SpelledListed(s: State, fold: char -> char, host: Host, e: string, so: bool, owners: seq<string>)
    requires forall i :: 0 <= i < |owners| ==> owners[i] in Spelled(s, fold, host, e, so)
    ensures so ==> !OtherListed(owners, fold, e)
    ensures !so ==> !Listed(owners, fold, e)
  {
  }

  /** Every listing shows the address exactly when some owner is sure to be shown in a spelling of it. */
  lemma ListedAlways(s: State, fold: char -> char, lower: char -> char, host: Host, e: string)
    requires Inv(s) && host in s.endpoints
    ensures (forall owners :: Lists(s, lower, host, owners) ==> Listed(owners, fold, e))
       <==> SurelyListed(s, fold, lower, host, e)
  {
    hide Lists, Inv, Choice, AllSpelled, Spelled, Listed, OtherListed, EmailOwners;
    if SurelyListed(s, fold, lower, host, e) {
      forall owners | Lists(s, lower, host, owners)
        ensures Listed(owners, fold, e)
      {
        SureIsListed(s, fold, lower, host, e, owners);
      }
    } else {
      forall o | o in EmailOwners(s, host)
        ensures Choice(s, lower, host, Spelled(s, fold, host, e, false), o)
      {
        UnsureChoice(s, fold, lower, host, e, o, false);
      }
      var owners := SomeListing(s, lower, host, Spelled(s, fold, host, e, false));
      SpelledListed(s, fold, host, e, false, owners);
    }
  }

  lemma OtherListedAlways(s: State, fold: char -> char, lower: char -> char, host: Host, e: string)
    requires Inv(s) && host in s.endpoints
    ensures (forall owners :: Lists(s, lower, host, owners) ==> OtherListed(owners, fold, e))
       <==> SurelyOther(s, fold, lower, host, e)
  {
    hide Lists, Inv, Choice, AllSpelled, Spelled, Listed, OtherListed, EmailOwners;
    if SurelyOther(s, fold, lower, host, e) {
      forall owners | Lists(s, lower, host, owners)
        ensures OtherListed(owners, fold, e)
      {
        SureIsListed(s, fold, lower, host, e, owners);
      }
    } else {
      forall o | o in EmailOwners(s, host)
        ensures Choice(s, lower, host, Spelled(s, fold, host, e, true), o)
      {
        UnsureChoice(s, fold, lower, host, e, o, true);
      }
      var owners := SomeListing(s, lower, host, Spelled(s, fold, host, e, true));
      SpelledListed(s, fold, host, e, true, owners);
    }
  }

  /** For the rows: revoking an owner removes exactly that address, in whatever order the grants are listed, exactly when
      every listing shows the address and somebody else, and no owner grant spells it as only the program folds. */
  lemma RevokeExact(s: State, fold: char -> char, lower: char -> char, hostname: string, email: string)
    requires Inv(s) && Folding(fold) && Key(hostname) in s.endpoints
    requires Owns(s, fold, Key(hostname), TrimSpace(email))
    ensures var e, host := TrimSpace(email), Key(hostname);
            (forall owners :: Lists(s, lower, host, owners) ==> Revokes(s, fold, hostname, email, owners))
            <==> SurelyListed(s, fold, lower, host, e) && SurelyOther(s, fold, lower, host, e)
                 && !Aliased(s, fold, host, e)
  {
    hide Lists, Inv, Folding, Revokes, Listed, OtherListed, SurelyListed, SurelyOther, Aliased, Owns, TrimSpace;
    var e, host := TrimSpace(email), Key(hostname);
    forall owners | Lists(s, lower, host, owners)
      ensures Revokes(s, fold, hostname, email, owners)
         <==> Listed(owners, fold, e) && OtherListed(owners, fold, e) && !Aliased(s, fold, host, e)
    {
      RevokeListed(s, fold, lower, hostname, email, owners);
    }
    ListedAlways(s, fold, lower, host, e);
    OtherListedAlways(s, fold, lower, host, e);
    var some := AnyListing(s, lower, host);
  }

  /** What the rows say a revocation should answer: refused for the last owner only. */
  ghost predicate RefusesRightly(s: State, fold: char -> char, hostname: string, email: string, owners: seq<string>) {
    var t, e, host := AfterRevoke(s, fold, hostname, email, owners), TrimSpace(email), Key(hostname);
    !t.ok <==> Owns(s, fold, host, e) && !SomeoneElseOwns(s, fold, host, e)
  }

  lemma RefusalListed(s: State, fold: char -> char, lower: char -> char, hostname: string, email: string,
                      owners: seq<string>)
    requires Inv(s) && Key(hostname) in s.endpoints && Lists(s, lower, Key(hostname), owners)
    ensures var t, e, host := AfterRevoke(s, fold, hostname, email, owners), TrimSpace(email), Key(hostname);
            && (!t.ok ==> t.state == s)
            && (RefusesRightly(s, fold, hostname, email, owners)
                <==> (Owns(s, fold, host, e) && SomeoneElseOwns(s, fold, host, e) ==> OtherListed(owners, fold, e)))
  {
    hide AfterRevoke, Others, TrimSpace, Inv, SameFolded, EmailOwners;
    var e, host := TrimSpace(email), Key(hostname);
    Branches(s, fold, hostname, email, owners);
    ListedOwns(s, fold, lower, host, owners, e);
    SomebodyListed(s, fold, lower, host, owners, e);
    if Listed(owners, fold, e) && OtherListed(owners, fold, e) {
      RevokeLeaves(s, fold, lower, hostname, email, owners);
    }
  }

  lemma SomebodyListed(s: State, fold: char -> char, lower: char -> char, host: Host, owners: seq<string>, e: string)
    requires Inv(s) && host in s.endpoints && Lists(s, lower, host, owners)
    ensures Listed(owners, fold, e) || OtherListed(owners, fold, e)
  {
    var slot := s.endpoints[host].owner;
    assert slot in EmailOwners(s, host);
    OwnersAreTidy(s, host, slot);
    assert owners[0] == slot;
  }

  /** The program refuses exactly the last owner, in whatever order the grants are listed, exactly when, of two owners of
      which one is revoked, the other is sure to be listed. */
  lemma RevokeRefuses(s: State, fold: char -> char, lower: char -> char, hostname: string, email: string)
    requires Inv(s) && Key(hostname) in s.endpoints
    ensures var e, host := TrimSpace(email), Key(hostname);
            (forall owners :: Lists(s, lower, host, owners) ==> RefusesRightly(s, fold, hostname, email, owners))
            <==> (Owns(s, fold, host, e) && SomeoneElseOwns(s, fold, host, e) ==> SurelyOther(s, fold, lower, host, e))
  {
    hide Lists, Inv, RefusesRightly, OtherListed, SurelyOther, Owns, SomeoneElseOwns, TrimSpace;
    var e, host := TrimSpace(email), Key(hostname);
    forall owners | Lists(s, lower, host, owners)
      ensures RefusesRightly(s, fold, hostname, email, owners)
         <==> (Owns(s, fold, host, e) && SomeoneElseOwns(s, fold, host, e) ==> OtherListed(owners, fold, e))
    {
      RefusalListed(s, fold, lower, hostname, email, owners);
    }
    OtherListedAlways(s, fold, lower, host, e);
  }

  // ----------------------------------------------------------- failing inputs

  /** Folding as the program does it for the Kelvin sign, which is a k to it and not to the database. */
  function KelvinFold(c: char): char {
    if c == '\U{212A}' then 'k' else AsciiLower(c)
  }

  const SIGN: string := "\U{212A}"

  /** One owner beside a grant to an address spelled with the Kelvin sign. */
  ghost function KelvinRows(ep: Endpoint): State {
    State(map[Key(ep.hostname) := ep], {Grant(Key(ep.hostname), Email, SIGN, Owner)})
  }

  lemma KelvinAliased(ep: Endpoint)
    requires GoodEndpoint(Key(ep.hostname), ep)
    ensures var s, host := KelvinRows(ep), Key(ep.hostname);
            && Inv(s) && Folding(KelvinFold) && Aliased(s, KelvinFold, host, "k")
            && host in s.endpoints && s.endpoints[host] == ep && EmailOwners(s, host) == {ep.owner, SIGN}
            && SameFolded(KelvinFold, SIGN, "k") && TrimSpace("k") == "k"
  {
    var fold: char -> char := KelvinFold;
    TrimTidy("k");
    assert fold("k"[0]) == 'k' && fold(SIGN[0]) == 'k';
    assert Nocase(SIGN)[0] != Nocase("k")[0];
    assert Grant(Key(ep.hostname), Email, SIGN, Owner) in KelvinRows(ep).grants && SameFolded(fold, SIGN, "k");
  }

  /** Revoking the k there succeeds, and k still has the owner role. */
  lemma KelvinStaysOwner(lower: char -> char, ep: Endpoint, owners: seq<string>)
    requires GoodEndpoint(Key(ep.hostname), ep) && !SameFolded(KelvinFold, ep.owner, "k")
    requires !SameFolded(lower, SIGN, ep.owner)
    requires Lists(KelvinRows(ep), lower, Key(ep.hostname), owners)
    ensures var t := AfterRevoke(KelvinRows(ep), KelvinFold, ep.hostname, "k", owners);
            t.ok && DirectRole(t.state, KelvinFold, Key(ep.hostname), Caller("k", [])) == Owner
  {
    hide AfterRevoke, Others, Lists, TrimSpace, SameFolded, Folding, Inv, Aliased, Listed, OtherListed, EmailOwners;
    hide KelvinRows, DirectRole, Owns, GoodEndpoint;
    var s, host := KelvinRows(ep), Key(ep.hostname);
    KelvinAliased(ep);
    KelvinListed(lower, ep, owners);
    Branches(s, KelvinFold, ep.hostname, "k", owners);
    RevokeLeaves(s, KelvinFold, lower, ep.hostname, "k", owners);
    RevokedRole(s, KelvinFold, lower, ep.hostname, "k", owners);
    ListedOwns(s, KelvinFold, lower, host, owners, "k");
  }

  lemma KelvinListed(lower: char -> char, ep: Endpoint, owners: seq<string>)
    requires GoodEndpoint(Key(ep.hostname), ep) && !SameFolded(KelvinFold, ep.owner, "k")
    requires !SameFolded(lower, SIGN, ep.owner)
    requires Lists(KelvinRows(ep), lower, Key(ep.hostname), owners)
    ensures Listed(owners, KelvinFold, "k") && OtherListed(owners, KelvinFold, "k")
  {
    hide Lists, TrimSpace, SameFolded, Folding, Inv, Aliased, EmailOwners, KelvinRows, GoodEndpoint;
    var s, host := KelvinRows(ep), Key(ep.hostname);
    KelvinAliased(ep);
    var p := ShownFor(s, lower, host, owners, SIGN);
    assert p == SIGN;
    var q := ShownFor(s, lower, host, owners, ep.owner);
    Alike(lower, ep.owner, q, q);
    assert q == ep.owner;
  }

  const DOTTED: string := "\U{130}"

  /** The capital I with a dot, which lowers to i and does not fold to it, recorded beside a grant to i. */
  ghost function DottedRows(ep: Endpoint): State {
    State(map[Key(ep.hostname) := ep], {Grant(Key(ep.hostname), Email, "i", Owner)})
  }

  ghost predicate Dotted(fold: char -> char, lower: char -> char, ep: Endpoint) {
    && GoodEndpoint(Key(ep.hostname), ep) && ep.owner == DOTTED
    && lower('\U{130}') == lower('i') && fold('\U{130}') != fold('i')
  }

  lemma DottedRowsAre(fold: char -> char, lower: char -> char, ep: Endpoint)
    requires Dotted(fold, lower, ep)
    ensures var s, host := DottedRows(ep), Key(ep.hostname);
            && Inv(s) && host in s.endpoints && s.endpoints[host] == ep && EmailOwners(s, host) == {DOTTED, "i"}
            && SameFolded(lower, "i", DOTTED) && !SameFolded(fold, DOTTED, "i") && !SameFolded(fold, "i", DOTTED)
            && DOTTED != "i"
  {
    assert Grant(Key(ep.hostname), Email, "i", Owner) in DottedRows(ep).grants;
    assert fold(DOTTED[0]) != fold("i"[0]);
    assert DOTTED[0] != "i"[0];
  }

  lemma DottedListing(fold: char -> char, lower: char -> char, ep: Endpoint, owners: seq<string>)
    requires Dotted(fold, lower, ep) && Lists(DottedRows(ep), lower, Key(ep.hostname), owners)
    ensures forall i :: 0 <= i < |owners| ==> owners[i] == DOTTED
    ensures DOTTED in owners
  {
    hide Lists, TrimSpace, SameFolded, Inv, EmailOwners, DottedRows, GoodEndpoint;
    var s, host := DottedRows(ep), Key(ep.hostname);
    DottedRowsAre(fold, lower, ep);
    var q := ShownFor(s, lower, host, owners, DOTTED);
    Alike(lower, DOTTED, q, q);
    forall i | 0 <= i < |owners|
      ensures owners[i] == DOTTED
    {
      ShowableOnly(s, lower, host, owners, i);
    }
  }

  /** Only what is showable is listed. */
  lemma ShowableOnly(s: State, lower: char -> char, host: Host, owners: seq<string>, i: nat)
    requires Inv(s) && host in s.endpoints && Lists(s, lower, host, owners) && i < |owners|
    ensures Showable(s, lower, host, owners[i])
  {
    hide TrimSpace;
    var slot := s.endpoints[host].owner;
    ListedIsOwner(s, lower, host, owners, i);
    OwnersAreTidy(s, host, slot);
    assert slot in EmailOwners(s, host);
    if SameFolded(lower, owners[i], slot) && i > 0 {
      Alike(lower, owners[i], slot, slot);
    }
  }

  /** Revoking i there reports success and changes nothing, and revoking the other owner is refused. */
  lemma DottedHides(fold: char -> char, lower: char -> char, ep: Endpoint, owners: seq<string>)
    requires Dotted(fold, lower, ep) && Folding(fold) && Lists(DottedRows(ep), lower, Key(ep.hostname), owners)
    ensures var s, host := DottedRows(ep), Key(ep.hostname);
            && Inv(s) && Owns(s, fold, host, "i") && Owns(s, fold, host, DOTTED)
            && !Aliased(s, fold, host, "i")
            && AfterRevoke(s, fold, ep.hostname, "i", owners) == Outcome(true, s)
            && DirectRole(s, fold, host, Caller("i", [])) == Owner
            && AfterRevoke(s, fold, ep.hostname, DOTTED, owners) == Outcome(false, s)
  {
    var s, host := DottedRows(ep), Key(ep.hostname);
    DottedRowsAre(fold, lower, ep);
    DottedListing(fold, lower, ep, owners);
    TrimTidy("i");
    TrimTidy(DOTTED);
    hide AfterRevoke, Others, Lists, TrimSpace, Inv, EmailOwners, DirectRole, GoodEndpoint;
    assert "i" in EmailOwners(s, host) && DOTTED in EmailOwners(s, host);
    assert SameFolded(fold, "i", "i") && SameFolded(fold, DOTTED, DOTTED);
    OwnerRole(s, fold, host, "i");
    Branches(s, fold, ep.hostname, "i", owners);
    Branches(s, fold, ep.hostname, DOTTED, owners);
  }
}
