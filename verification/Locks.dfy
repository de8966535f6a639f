/**
 Tables of named locks held by tasks, as both reservation managers keep them.
 The random task ids are assumed unique, so a task is named by its place in the
 order of creation.
 */
module Locks {
  import opened Options

  type Id = nat
  type Table = map<string, Id>

  function Names(keys: seq<string>): set<string> {
    set k | k in keys
  }

  /** The first of these locks that is taken. */
  function FirstHeld(active: Table, keys: seq<string>): (r: Option<string>)
    ensures r.None? <==> forall k :: k in keys ==> k !in active
    ensures r.Some? ==> r.value in keys && r.value in active
  {
    if keys == [] then None
    else if keys[0] in active then Some(keys[0])
    else assert keys == [keys[0]] + keys[1..]; FirstHeld(active, keys[1..])
  }

  lemma {:induction false} FirstHeldIsFirst(active: Table, keys: seq<string>, k: string)
    requires FirstHeld(active, keys) == Some(k)
    ensures exists i :: 0 <= i < |keys| && keys[i] == k && forall j :: 0 <= j < i ==> keys[j] !in active
  {
    if keys[0] !in active {
      FirstHeldIsFirst(active, keys[1..], k);
      var i :| 0 <= i < |keys[1..]| && keys[1..][i] == k && forall j :: 0 <= j < i ==> keys[1..][j] !in active;
      assert keys[i + 1] == k && forall j :: 0 < j < i + 1 ==> keys[j] == keys[1..][j - 1];
    }
  }

  function ReserveAll(active: Table, keys: seq<string>, id: Id): Table {
    active + map k | k in keys :: id
  }

  /** Frees locks whoever holds them. */
  function PopAll(active: Table, keys: seq<string>): Table {
    active - Names(keys)
  }

  /** Frees the locks this task holds. */
  function PopOwned(active: Table, keys: seq<string>, id: Id): Table {
    map k | k in active && !(k in keys && active[k] == id) :: active[k]
  }

  method Search(active: Table, keys: seq<string>) returns (r: Option<string>)
    ensures r == FirstHeld(active, keys)
  {
    var i := 0;
    while i < |keys|
      invariant i <= |keys|
      invariant FirstHeld(active, keys) == FirstHeld(active, keys[i..])
    {
      if keys[i] in active {
        return Some(keys[i]);
      }
      i := i + 1;
    }
    return None;
  }

  lemma ReserveOne(active: Table, keys: seq<string>, i: nat, id: Id)
    requires i < |keys|
    ensures ReserveAll(active, keys[..i + 1], id) == ReserveAll(active, keys[..i], id)[keys[i] := id]
  {
    assert keys[..i + 1] == keys[..i] + [keys[i]];
  }

  /** The locks of a list set one by one. */
  method Reserve(active: Table, keys: seq<string>, id: Id) returns (r: Table)
    ensures r == ReserveAll(active, keys, id)
  {
    r := active;
    assert active == ReserveAll(active, keys[..0], id);
    for i := 0 to |keys|
      invariant r == ReserveAll(active, keys[..i], id)
    {
      hide ReserveAll;
      ReserveOne(active, keys, i, id);
      r := r[keys[i] := id];
    }
    assert keys[..|keys|] == keys;
  }

  method Pop(active: Table, keys: seq<string>) returns (r: Table)
    ensures r == PopAll(active, keys)
  {
    r := active;
    assert active == PopAll(active, keys[..0]);
    for i := 0 to |keys|
      invariant r == PopAll(active, keys[..i])
    {
      assert keys[..i + 1] == keys[..i] + [keys[i]];
      r := r - {keys[i]};
    }
    assert keys[..|keys|] == keys;
  }

  method PopIfOwned(active: Table, keys: seq<string>, id: Id) returns (r: Table)
    ensures r == PopOwned(active, keys, id)
  {
    r := active;
    assert active == PopOwned(active, keys[..0], id);
    for i := 0 to |keys|
      invariant r == PopOwned(active, keys[..i], id)
    {
      assert keys[..i + 1] == keys[..i] + [keys[i]];
      if keys[i] in r && r[keys[i]] == id {
        r := r - {keys[i]};
      }
    }
    assert keys[..|keys|] == keys;
  }

  // -------------------------------------------------------------- invariant

  /**
   lists gives the locks each known task names. Every lock taken is held by a
   live task that names it, and every live task holds all the locks it names.
   */
  ghost predicate Exclusive(active: Table, lists: map<Id, seq<string>>, live: set<Id>) {
    && live <= lists.Keys
    && Owned(active, lists, live)
    && forall id, k :: id in live && k in lists[id] ==> k in active && active[k] == id
  }

  ghost predicate Owned(active: Table, lists: map<Id, seq<string>>, live: set<Id>) {
    forall k :: k in active ==> active[k] in live && active[k] in lists && k in lists[active[k]]
  }

  lemma ReserveKeepsOwned(active: Table, lists: map<Id, seq<string>>, live: set<Id>, id: Id, keys: seq<string>)
    requires Owned(active, lists, live) && id !in lists
    ensures Owned(ReserveAll(active, keys, id), lists[id := keys], live + {id})
  {
  }

  lemma ReserveKeepsExclusive(active: Table, lists: map<Id, seq<string>>, live: set<Id>, id: Id, keys: seq<string>)
    requires Exclusive(active, lists, live) && id !in lists && FirstHeld(active, keys).None?
    ensures Exclusive(ReserveAll(active, keys, id), lists[id := keys], live + {id})
  {
    ReserveKeepsOwned(active, lists, live, id, keys);
  }

  /** Freeing only its own locks never takes one from another task. */
  lemma PopOwnedKeepsExclusive(active: Table, lists: map<Id, seq<string>>, live: set<Id>, id: Id)
    requires Exclusive(active, lists, live) && id in lists
    ensures Exclusive(PopOwned(active, lists[id], id), lists, live - {id})
  {
  }

  lemma PopAllKeepsOwned(active: Table, lists: map<Id, seq<string>>, live: set<Id>, id: Id, keys: seq<string>)
    requires Owned(active, lists, live) && id in lists && Names(lists[id]) <= Names(keys)
    ensures Owned(PopAll(active, keys), lists, live - {id})
  {
    forall k | k in PopAll(active, keys) ensures active[k] != id {
      assert k !in Names(keys);
    }
  }

  /** Freeing locks whoever holds them is safe exactly when no other task holds one of them. */
  lemma PopAllExact(active: Table, lists: map<Id, seq<string>>, live: set<Id>, id: Id, keys: seq<string>)
    requires Exclusive(active, lists, live) && id in lists && Names(lists[id]) <= Names(keys)
    ensures Exclusive(PopAll(active, keys), lists, live - {id})
       <==> forall k :: k in keys && k in active ==> active[k] == id
  {
    PopAllKeepsOwned(active, lists, live, id, keys);
    var r := PopAll(active, keys);
    if k :| k in keys && k in active && active[k] != id {
      assert active[k] in live - {id} && k in lists[active[k]] && k !in r;
    } else {
      forall other, k | other in live - {id} && k in lists[other] ensures k in r && r[k] == other {
        assert active[k] == other;
      }
    }
  }

  /** Two live tasks never name the same lock. */
  lemma NoSharing(active: Table, lists: map<Id, seq<string>>, live: set<Id>, a: Id, b: Id, k: string)
    requires Exclusive(active, lists, live) && a in live && b in live && k in lists[a] && k in lists[b]
    ensures a == b
  {
    assert active[k] == a;
  }

  /** Forgetting tasks that are not live loses no lock holder. */
  lemma ForgetKeepsExclusive(active: Table, lists: map<Id, seq<string>>, live: set<Id>, gone: set<Id>)
    requires Exclusive(active, lists, live) && gone !! live
    ensures Exclusive(active, lists - gone, live)
  {
  }
}
