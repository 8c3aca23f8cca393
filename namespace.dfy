/**
 * The collection namespace of the MySQL store: ten well-known names with ids
 * shared by all users, and the `collections` table mapping every other name
 * a user writes to to a per-user id.  The table is a sequence of rows in
 * insertion order; a lookup by name returns the first matching row, as
 * `fetchColumn` does.
 */
module Namespace {
  import opened Wrappers
  import opened Php

  /** A row of the `collections` table: (userid, collectionid, name). */
  datatype Mapping = Mapping(userid: string, collectionid: int, name: string)

  type Table = seq<Mapping>

  /** The fixed ids of the well-known collections. */
  const WellKnown: map<string, int> := map[
    "clients" := 1, "crypto" := 2, "forms" := 3, "history" := 4, "keys" := 5,
    "meta" := 6, "bookmarks" := 7, "prefs" := 8, "tabs" := 9, "passwords" := 10]

  /** `array_flip` of `WellKnown`: the initial id-to-name cache. */
  const WellKnownNames: map<int, string> := map[
    1 := "clients", 2 := "crypto", 3 := "forms", 4 := "history", 5 := "keys",
    6 := "meta", 7 := "bookmarks", 8 := "prefs", 9 := "tabs", 10 := "passwords"]

  /** The name cache starts as the exact inverse of the fixed table, over ids 1 to 10. */
  lemma WellKnownNamesIsInverse()
    ensures forall n :: n in WellKnown ==> WellKnown[n] in WellKnownNames && WellKnownNames[WellKnown[n]] == n
    ensures forall c :: c in WellKnownNames ==> WellKnownNames[c] in WellKnown && WellKnown[WellKnownNames[c]] == c
    ensures forall c :: c in WellKnownNames <==> 1 <= c <= 10
  {
  }

  /** The id `select collectionid ... where userid = ? and name = ?` fetches: the first matching row's. */
  function FindId(t: Table, user: string, name: string): (r: Option<int>)
    ensures r.None? <==> forall i :: 0 <= i < |t| ==> !(t[i].userid == user && t[i].name == name)
    ensures r.Some? ==> exists i :: 0 <= i < |t| && t[i] == Mapping(user, r.value, name)
    decreases |t|
  {
    if |t| == 0 then None
    else if t[0].userid == user && t[0].name == name then Some(t[0].collectionid)
    else
      var r := FindId(t[1..], user, name);
      assert forall i :: 1 <= i < |t| ==> t[i] == t[1..][i - 1];
      r
  }

  /** `select max(collectionid) ... where userid = ?`: NULL when the user has no row. */
  function MaxId(t: Table, user: string): (r: Option<int>)
    ensures r.None? <==> forall i :: 0 <= i < |t| ==> t[i].userid != user
    ensures r.Some? ==> forall i :: 0 <= i < |t| && t[i].userid == user ==> t[i].collectionid <= r.value
    ensures r.Some? ==> exists i :: 0 <= i < |t| && t[i].userid == user && t[i].collectionid == r.value
    decreases |t|
  {
    if |t| == 0 then None
    else
      var rest := MaxId(t[1..], user);
      assert forall i :: 1 <= i < |t| ==> t[i] == t[1..][i - 1];
      if t[0].userid != user then rest
      else if rest.None? || rest.value < t[0].collectionid then Some(t[0].collectionid)
      else rest
  }

  /**
   * The id `store_collection_id` allocates: the maximum plus one, where a
   * missing (or zero) maximum counts as 100.
   */
  function NextId(t: Table, user: string): (r: int)
    ensures forall i :: 0 <= i < |t| && t[i].userid == user ==> t[i].collectionid < r
    ensures (forall i :: 0 <= i < |t| ==> t[i].userid != user) ==> r == 101
    ensures MaxId(t, user).Some? && MaxId(t, user).value != 0 ==> r == MaxId(t, user).value + 1
  {
    var m := MaxId(t, user);
    (if m.None? || m.value == 0 then 100 else m.value) + 1
  }

  /**
   * What `get_collection_id` returns without allocating anything: 0 for a
   * falsy name, the fixed id of a well-known name, or a non-zero stored id;
   * `None` when it would allocate.
   */
  function Lookup(t: Table, user: string, name: string): Option<int> {
    if !Truthy(name) then Some(0)
    else if name in WellKnown then Some(WellKnown[name])
    else
      var r := FindId(t, user, name);
      if r.Some? && r.value != 0 then r else None
  }

  /** The id the name resolves to once `get_collection_id` has run (0 when unresolved). */
  function IdOf(t: Table, user: string, name: string): int {
    Lookup(t, user, name).GetOr(0)
  }

  /**
   * The table the allocator keeps: custom ids above 100, the primary key
   * (userid, collectionid), one row per (userid, name), and names that are
   * neither falsy nor well-known.
   */
  ghost predicate WellFormed(t: Table) {
    && (forall i :: 0 <= i < |t| ==> t[i].collectionid > 100)
    && (forall i :: 0 <= i < |t| ==> Truthy(t[i].name) && t[i].name !in WellKnown)
    && (forall i, j :: 0 <= i < j < |t| && t[i].userid == t[j].userid ==>
          t[i].collectionid != t[j].collectionid && t[i].name != t[j].name)
  }

  /** The (id, name) pairs of one user, as `get_users_collection_list` loads them (later rows win). */
  function UserNames(t: Table, user: string): (r: map<int, string>)
    ensures forall c :: c in r <==> exists i :: 0 <= i < |t| && t[i].userid == user && t[i].collectionid == c
    ensures forall c :: c in r ==> exists i :: 0 <= i < |t| && t[i] == Mapping(user, c, r[c])
    decreases |t|
  {
    if |t| == 0 then map[]
    else
      var init := t[..|t| - 1];
      var r := UserNames(init, user);
      assert forall i :: 0 <= i < |init| ==> init[i] == t[i];
      var m := t[|t| - 1];
      if m.userid == user then r[m.collectionid := m.name] else r
  }

  /** The first allocation for a user is 101. */
  lemma FirstAllocationIs101(t: Table, user: string)
    requires forall i :: 0 <= i < |t| ==> t[i].userid != user
    ensures NextId(t, user) == 101
  {
  }

  /** Appending a row never changes what a name already resolved to; a new row can only answer a name that had none. */
  lemma {:induction false} FindIdAppend(t: Table, m: Mapping, user: string, name: string)
    ensures FindId(t + [m], user, name) ==
      if FindId(t, user, name).Some? then FindId(t, user, name)
      else if m.userid == user && m.name == name then Some(m.collectionid)
      else None
    decreases |t|
  {
    if |t| == 0 {
      assert t + [m] == [m];
    } else {
      assert (t + [m])[1..] == t[1..] + [m];
      FindIdAppend(t[1..], m, user, name);
    }
  }

  lemma UserNamesAppend(t: Table, m: Mapping, user: string)
    ensures UserNames(t + [m], user) ==
      if m.userid == user then UserNames(t, user)[m.collectionid := m.name] else UserNames(t, user)
  {
    assert (t + [m])[..|t|] == t;
  }

  /** Above the custom floor, the next id is too. */
  lemma NextIdAboveFloor(t: Table, user: string)
    requires forall i :: 0 <= i < |t| ==> t[i].collectionid > 100
    ensures NextId(t, user) > 100
  {
    if MaxId(t, user).Some? {
      var i :| 0 <= i < |t| && t[i].userid == user && t[i].collectionid == MaxId(t, user).value;
    }
  }

  /** In a well-formed table a fetched id is a custom one. */
  lemma FoundIdIsCustom(t: Table, user: string, name: string)
    requires WellFormed(t)
    ensures FindId(t, user, name).Some? ==> FindId(t, user, name).value > 100
  {
    if FindId(t, user, name).Some? {
      var i :| 0 <= i < |t| && t[i] == Mapping(user, FindId(t, user, name).value, name);
    }
  }

  /** A name that does not resolve has no row for the user in a well-formed table. */
  lemma UnresolvedHasNoRow(t: Table, user: string, name: string)
    requires WellFormed(t) && Lookup(t, user, name).None?
    ensures Truthy(name) && name !in WellKnown
    ensures forall i :: 0 <= i < |t| ==> !(t[i].userid == user && t[i].name == name)
  {
    FoundIdIsCustom(t, user, name);
  }

  lemma AllocationKeepsWellFormed(t: Table, user: string, name: string)
    requires WellFormed(t) && Lookup(t, user, name).None?
    ensures WellFormed(t + [Mapping(user, NextId(t, user), name)])
  {
    var m := Mapping(user, NextId(t, user), name);
    var t' := t + [m];
    NextIdAboveFloor(t, user);
    UnresolvedHasNoRow(t, user, name);
    assert forall k :: 0 <= k < |t| ==> t'[k] == t[k];
    assert t'[|t|] == m;
  }

  /**
   * Allocating for a name that does not resolve: the new id is above 100
   * and fresh for the user, the name now resolves to it, every other
   * (user, name) keeps what it resolved to, and the table stays well-formed.
   */
  lemma AllocationResolves(t: Table, user: string, name: string)
    requires WellFormed(t) && Lookup(t, user, name).None?
    ensures var c := NextId(t, user); var t' := t + [Mapping(user, c, name)];
      && c > 100
      && c !in UserNames(t, user)
      && Lookup(t', user, name) == Some(c)
      && (forall u, n :: (u, n) != (user, name) ==> Lookup(t', u, n) == Lookup(t, u, n))
      && WellFormed(t')
  {
    var c := NextId(t, user);
    var m := Mapping(user, c, name);
    var t' := t + [m];
    NextIdAboveFloor(t, user);
    UnresolvedHasNoRow(t, user, name);
    AllocationKeepsWellFormed(t, user, name);
    FindIdAppend(t, m, user, name);
    forall u, n | (u, n) != (user, name) ensures Lookup(t', u, n) == Lookup(t, u, n) {
      FindIdAppend(t, m, u, n);
    }
  }

  /** Once a name resolves, later allocations for other names keep it resolving to the same id. */
  lemma ResolutionIsStable(t: Table, m: Mapping, user: string, name: string)
    requires Lookup(t, user, name).Some?
    ensures Lookup(t + [m], user, name) == Lookup(t, user, name)
  {
    FindIdAppend(t, m, user, name);
  }

  /** In a well-formed table the loaded names are distinct, custom and never well-known. */
  lemma UserNamesInjective(t: Table, user: string)
    requires WellFormed(t)
    ensures forall c :: c in UserNames(t, user) ==> c > 100 && UserNames(t, user)[c] !in WellKnown
    ensures forall c, d :: c in UserNames(t, user) && d in UserNames(t, user) && c != d ==>
      UserNames(t, user)[c] != UserNames(t, user)[d]
  {
    var un := UserNames(t, user);
    forall c, d | c in un && d in un && c != d ensures un[c] != un[d] {
      var i :| 0 <= i < |t| && t[i] == Mapping(user, c, un[c]);
      var j :| 0 <= j < |t| && t[j] == Mapping(user, d, un[d]);
      assert i != j;
    }
    forall c | c in un ensures c > 100 && un[c] !in WellKnown {
      var i :| 0 <= i < |t| && t[i] == Mapping(user, c, un[c]);
    }
  }
}
