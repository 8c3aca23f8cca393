/**
 * `WeaveStorageMysql`: the record store of one user over the shared `wbo`
 * and `collections` tables.  The database behind the connection is a
 * `Database` object whose tables are fields; the store object keeps the
 * user it serves and the lazily filled id-to-name cache.
 *
 * Collection names are resolved to ids through `get_collection_id`, which
 * allocates an id for an unknown name as a side effect, on reads as well
 * as writes.  Statements whose rows SQL leaves in an unspecified order are
 * evaluated by `Query.Select`.
 */
module MysqlStorage {
  import opened Wrappers
  import opened Php
  import opened Records
  import opened Namespace
  import opened Query

  /** The primary key of the `wbo` table. */
  datatype RowKey = RowKey(username: string, collection: int, id: string)

  type Rows = map<RowKey, Row>

  /** The transaction calls a connection has seen. */
  datatype TxEvent = Begin | Commit

  /** The rows of one user in one collection, by record id. */
  function ScopeOf(rows: Rows, user: string, cid: int): (s: Scope)
    ensures forall id :: id in s <==> RowKey(user, cid, id) in rows
    ensures forall id :: id in s ==> s[id] == rows[RowKey(user, cid, id)]
  {
    map k | k in rows && k.username == user && k.collection == cid :: k.id := rows[k]
  }

  /** The collection ids the user has rows in: the groups of `group by collection`. */
  function CollectionsOf(rows: Rows, user: string): (r: set<int>)
    ensures forall c :: c in r <==> exists id :: RowKey(user, c, id) in rows
  {
    var r := set k | k in rows && k.username == user :: k.collection;
    assert forall c, id :: RowKey(user, c, id) in rows ==> c in r by {
      forall c, id | RowKey(user, c, id) in rows ensures c in r {
        var k := RowKey(user, c, id);
        assert k in rows && k.username == user;
      }
    }
    r
  }

  /** The rows left after deleting the records `ids` of one user in one collection. */
  function Without(rows: Rows, user: string, cid: int, ids: set<string>): (r: Rows)
    ensures forall k :: k in r <==> k in rows && !(k.username == user && k.collection == cid && k.id in ids)
    ensures forall k :: k in r ==> r[k] == rows[k]
  {
    map k | k in rows && !(k.username == user && k.collection == cid && k.id in ids) :: rows[k]
  }

  /**
   * A multi-row `insert ... on duplicate key update` of every column:
   * entries are applied in order, so the last entry for a key wins.
   */
  function Upsert(rows: Rows, es: seq<(RowKey, Row)>): (r: Rows)
    ensures forall k :: k in r <==> k in rows || exists i :: 0 <= i < |es| && es[i].0 == k
    ensures forall k :: k in rows && (forall i :: 0 <= i < |es| ==> es[i].0 != k) ==> r[k] == rows[k]
    ensures forall i :: 0 <= i < |es| && (forall j :: i < j < |es| ==> es[j].0 != es[i].0) ==> r[es[i].0] == es[i].1
    decreases |es|
  {
    if |es| == 0 then rows
    else
      var r := Upsert(rows[es[0].0 := es[0].1], es[1..]);
      assert forall i :: 1 <= i < |es| ==> es[i] == es[1..][i - 1];
      r
  }

  /** The names a batch of records resolves. */
  function CollectionNames(wbos: seq<WBO>): (r: set<string>)
    ensures forall i :: 0 <= i < |wbos| ==> StringOf(wbos[i].collection) in r
  {
    set i | 0 <= i < |wbos| :: StringOf(wbos[i].collection)
  }

  /** The rows `store_object` writes for a batch whose names all resolve in `t`. */
  function Entries(user: string, t: Table, wbos: seq<WBO>): (es: seq<(RowKey, Row)>)
    requires forall i :: 0 <= i < |wbos| ==> wbos[i].id.Some?
    ensures |es| == |wbos|
    ensures forall i :: 0 <= i < |wbos| ==>
      es[i] == (RowKey(user, IdOf(t, user, StringOf(wbos[i].collection)), wbos[i].id.value), RowOf(wbos[i]))
  {
    seq(|wbos|, i requires 0 <= i < |wbos| =>
      (RowKey(user, IdOf(t, user, StringOf(wbos[i].collection)), wbos[i].id.value), RowOf(wbos[i])))
  }

  // ---- The namespace as the store changes it ----

  /**
   * How the collections table may change while names are resolved: it only
   * grows, a name that resolved keeps its id, only the user's `names` may
   * newly resolve, and afterwards all of them do.
   */
  ghost predicate Allocates(t: Table, t': Table, user: string, names: set<string>) {
    && t <= t'
    && (forall u, n :: Lookup(t, u, n).Some? ==> Lookup(t', u, n) == Lookup(t, u, n))
    && (forall u, n :: u != user || n !in names ==> Lookup(t', u, n) == Lookup(t, u, n))
    && (forall n :: n in names ==> Lookup(t', user, n).Some?)
  }

  lemma AllocatesNothing(t: Table, user: string)
    ensures Allocates(t, t, user, {})
  {
  }

  lemma AllocatesTrans(t0: Table, t1: Table, t2: Table, user: string, n1: set<string>, n2: set<string>)
    requires Allocates(t0, t1, user, n1) && Allocates(t1, t2, user, n2)
    ensures Allocates(t0, t2, user, n1 + n2)
  {
    forall n | n in n1 + n2 ensures Lookup(t2, user, n).Some? {
      if n in n1 {
        assert Lookup(t1, user, n).Some?;
      }
    }
  }

  /** Resolving one more record of a batch extends what the batch has allocated. */
  lemma ResolveStep(t0: Table, t1: Table, t2: Table, user: string, wbos: seq<WBO>, i: nat)
    requires i < |wbos|
    requires Allocates(t0, t1, user, CollectionNames(wbos[..i]))
    requires Allocates(t1, t2, user, {StringOf(wbos[i].collection)})
    ensures Allocates(t0, t2, user, CollectionNames(wbos[..i + 1]))
  {
    AllocatesTrans(t0, t1, t2, user, CollectionNames(wbos[..i]), {StringOf(wbos[i].collection)});
    assert CollectionNames(wbos[..i + 1]) == CollectionNames(wbos[..i]) + {StringOf(wbos[i].collection)} by {
      assert forall j :: 0 <= j < i ==> wbos[..i + 1][j] == wbos[..i][j];
    }
  }

  /**
   * What the name cache may hold: every well-known id with its name, and
   * otherwise only ids the user's rows of the collections table give,
   * with the name the table gives.
   */
  ghost predicate CacheSound(names: map<int, string>, t: Table, user: string) {
    && (forall c :: c in WellKnownNames ==> c in names && names[c] == WellKnownNames[c])
    && (forall c :: c in names && c !in WellKnownNames ==>
          c in UserNames(t, user) && names[c] == UserNames(t, user)[c])
  }

  /** Allocating an id keeps every cached name valid. */
  lemma CacheSurvivesAllocation(names: map<int, string>, t: Table, user: string, name: string)
    requires WellFormed(t) && Lookup(t, user, name).None? && CacheSound(names, t, user)
    ensures CacheSound(names, t + [Mapping(user, NextId(t, user), name)], user)
  {
    AllocationResolves(t, user, name);
    UserNamesAppend(t, Mapping(user, NextId(t, user), name), user);
  }

  /** Loading the user's mappings into a sound cache keeps it sound. */
  lemma CacheSurvivesLoad(names: map<int, string>, t: Table, user: string)
    requires WellFormed(t) && CacheSound(names, t, user)
    ensures CacheSound(names + UserNames(t, user), t, user)
  {
    var un := UserNames(t, user);
    var loaded := names + un;
    UserNamesInjective(t, user);
    WellKnownNamesIsInverse();
    forall c | c in WellKnownNames ensures c in loaded && loaded[c] == WellKnownNames[c] {
      assert c !in un;
    }
  }

  lemma MergeUpdate<K, V>(a: map<K, V>, b: map<K, V>, k: K, v: V)
    ensures (a + b)[k := v] == a + b[k := v]
  {
  }

  /** Loading never renames an id the cache already holds. */
  lemma LoadKeepsCached(names: map<int, string>, t: Table, user: string)
    requires WellFormed(t) && CacheSound(names, t, user)
    ensures names.Keys <= (names + UserNames(t, user)).Keys
    ensures forall c :: c in names ==> (names + UserNames(t, user))[c] == names[c]
  {
    UserNamesInjective(t, user);
    WellKnownNamesIsInverse();
  }

  lemma AgreeOnPrefix(groups: seq<int>, i: int, names: map<int, string>, names': map<int, string>)
    requires 0 <= i <= |groups| && forall j :: 0 <= j < i ==> groups[j] in names
    requires names.Keys <= names'.Keys && forall c :: c in names ==> names'[c] == names[c]
    ensures forall j :: 0 <= j < i ==> (groups[..i][j] in names <==> groups[..i][j] in names')
    ensures forall j :: 0 <= j < i && groups[..i][j] in names ==> names'[groups[..i][j]] == names[groups[..i][j]]
  {
    forall j | 0 <= j < i ensures groups[..i][j] in names' && names'[groups[..i][j]] == names[groups[..i][j]] {
      var c := groups[..i][j];
      assert c == groups[j] && c in names;
      assert names'[c] == names[c];
    }
  }

  /**
   * The array the naming loop builds from the groups `gs` in order: each
   * group whose id has a name is stored under that name (a later group
   * overwrites an earlier one of the same name), the others are skipped.
   */
  function NamedAggregates<V>(gs: seq<int>, agg: map<int, V>, names: map<int, string>): map<string, V>
    decreases |gs|
  {
    if |gs| == 0 then map[]
    else
      var r := NamedAggregates(gs[..|gs| - 1], agg, names);
      var c := gs[|gs| - 1];
      if c in names && c in agg then r[names[c] := agg[c]] else r
  }

  /**
   * With distinct names, every named group is in the array under its name
   * with its own aggregate, and every key of the array names some group.
   */
  lemma {:induction false} NamedAggregatesSound<V>(gs: seq<int>, agg: map<int, V>, names: map<int, string>)
    requires forall j :: 0 <= j < |gs| ==> gs[j] in agg
    requires forall c, d :: c in names && d in names && c != d ==> names[c] != names[d]
    ensures forall j :: 0 <= j < |gs| && gs[j] in names ==>
      names[gs[j]] in NamedAggregates(gs, agg, names) && NamedAggregates(gs, agg, names)[names[gs[j]]] == agg[gs[j]]
    ensures forall n :: n in NamedAggregates(gs, agg, names) ==> exists j :: 0 <= j < |gs| && gs[j] in names && names[gs[j]] == n
    decreases |gs|
  {
    if |gs| > 0 {
      var init := gs[..|gs| - 1];
      assert forall j :: 0 <= j < |init| ==> init[j] == gs[j];
      NamedAggregatesSound(init, agg, names);
      var r0 := NamedAggregates(init, agg, names);
      var r := NamedAggregates(gs, agg, names);
      var g := gs[|gs| - 1];
      forall j | 0 <= j < |gs| && gs[j] in names ensures names[gs[j]] in r && r[names[gs[j]]] == agg[gs[j]] {
        var c := gs[j];
        if j < |init| && g in names && g in agg && c != g {
          assert init[j] == c;
          assert names[c] != names[g];
        }
      }
      forall n | n in r ensures exists j :: 0 <= j < |gs| && gs[j] in names && names[gs[j]] == n {
        if g in names && g in agg && n == names[g] {
          assert gs[|gs| - 1] == g;
        } else {
          assert n in r0;
          var j :| 0 <= j < |init| && init[j] in names && names[init[j]] == n;
          assert gs[j] == init[j];
        }
      }
    }
  }

  /** One more group: the array is updated under that group's name, if it has one. */
  lemma NamedAggregatesSnoc<V>(gs: seq<int>, i: int, agg: map<int, V>, names: map<int, string>)
    requires 0 <= i < |gs|
    ensures NamedAggregates(gs[..i + 1], agg, names) ==
      var r := NamedAggregates(gs[..i], agg, names);
      if gs[i] in names && gs[i] in agg then r[names[gs[i]] := agg[gs[i]]] else r
  {
    var prefix := gs[..i + 1];
    assert prefix[..|prefix| - 1] == gs[..i] && prefix[|prefix| - 1] == gs[i];
  }

  /** The array depends only on the names of the groups it is built from. */
  lemma {:induction false} NamedAggregatesAgree<V>(gs: seq<int>, agg: map<int, V>, names: map<int, string>, names': map<int, string>)
    requires forall j :: 0 <= j < |gs| ==> (gs[j] in names <==> gs[j] in names')
    requires forall j :: 0 <= j < |gs| && gs[j] in names ==> names'[gs[j]] == names[gs[j]]
    ensures NamedAggregates(gs, agg, names) == NamedAggregates(gs, agg, names')
    decreases |gs|
  {
    if |gs| > 0 {
      var init := gs[..|gs| - 1];
      assert forall j :: 0 <= j < |init| ==> init[j] == gs[j];
      NamedAggregatesAgree(init, agg, names, names');
    }
  }

  /** No two ids of a sound cache carry the same name. */
  lemma CacheInjective(names: map<int, string>, t: Table, user: string)
    requires WellFormed(t) && CacheSound(names, t, user)
    ensures forall c, d :: c in names && d in names && c != d ==> names[c] != names[d]
  {
    UserNamesInjective(t, user);
    WellKnownNamesIsInverse();
  }

  /** The database behind the store's connection. */
  class Database {
    /** The `wbo` table. */
    var rows: Rows
    /** The `collections` table, in insertion order. */
    var collections: Table
    /** The transaction calls made on the connection. */
    var log: seq<TxEvent>

    ghost predicate Valid()
      reads this
    {
      WellFormed(collections)
    }

    constructor (rows: Rows)
      ensures this.rows == rows && collections == [] && log == [] && Valid()
    {
      this.rows := rows;
      collections := [];
      log := [];
    }
  }

  class WeaveStorageMysql {
    /** `_username`. */
    const username: string
    /** `_dbh`. */
    const db: Database
    /** `WEAVE_COLLECTION_NAMES`: the id-to-name cache. */
    var names: map<int, string>

    ghost predicate Valid()
      reads this, db
    {
      db.Valid() && CacheSound(names, db.collections, username)
    }

    /** The cache starts as the flip of the well-known table. */
    constructor (username: string, db: Database)
      requires db.Valid()
      ensures this.username == username && this.db == db && names == WellKnownNames
      ensures Valid()
    {
      this.username := username;
      this.db := db;
      names := WellKnownNames;
    }

    method BeginTransaction()
      modifies db
      ensures db.log == old(db.log) + [Begin]
      ensures db.rows == old(db.rows) && db.collections == old(db.collections)
    {
      db.log := db.log + [Begin];
    }

    method CommitTransaction()
      modifies db
      ensures db.log == old(db.log) + [Commit]
      ensures db.rows == old(db.rows) && db.collections == old(db.collections)
    {
      db.log := db.log + [Commit];
    }

    /**
     * `get_collection_id`: 0 for a falsy name, the fixed id of a well-known
     * name, the stored id when the table has a non-zero one, and otherwise
     * a newly allocated id.
     */
    method GetCollectionId(name: string) returns (id: int)
      requires Valid()
      modifies db
      ensures Valid()
      ensures db.rows == old(db.rows) && db.log == old(db.log)
      ensures Lookup(old(db.collections), username, name).Some? ==>
        id == Lookup(old(db.collections), username, name).value && db.collections == old(db.collections)
      ensures Lookup(old(db.collections), username, name).None? ==>
        && id == NextId(old(db.collections), username)
        && db.collections == old(db.collections) + [Mapping(username, id, name)]
        && id > 100 && id !in UserNames(old(db.collections), username)
      ensures Lookup(db.collections, username, name) == Some(id)
      ensures Allocates(old(db.collections), db.collections, username, {name})
    {
      if !Truthy(name) {
        return 0;
      }
      if name in WellKnown {
        return WellKnown[name];
      }
      var found := FindId(db.collections, username, name);
      if found.Some? && found.value != 0 {
        return found.value;
      }
      AllocationResolves(db.collections, username, name);
      CacheSurvivesAllocation(names, db.collections, username, name);
      id := StoreCollectionId(name);
    }

    /** `store_collection_id`: one new mapping, maximum plus one with a floor of 100. */
    method StoreCollectionId(name: string) returns (id: int)
      modifies db
      ensures id == NextId(old(db.collections), username)
      ensures db.collections == old(db.collections) + [Mapping(username, id, name)]
      ensures db.rows == old(db.rows) && db.log == old(db.log)
    {
      var max := MaxId(db.collections, username);
      id := if max.None? || max.value == 0 then 100 else max.value;
      id := id + 1;
      db.collections := db.collections + [Mapping(username, id, name)];
    }

    /**
     * `get_users_collection_list`: copies every (id, name) row of the user
     * into the cache, later rows winning.  Its own return value is always
     * an empty array, which no caller uses.
     */
    method LoadUserCollections()
      requires Valid()
      modifies this
      ensures Valid()
      ensures names == old(names) + UserNames(db.collections, username)
    {
      var t := db.collections;
      for i := 0 to |t|
        invariant names == old(names) + UserNames(t[..i], username)
      {
        assert t[..i + 1] == t[..i] + [t[i]];
        UserNamesAppend(t[..i], t[i], username);
        if t[i].userid == username {
          MergeUpdate(old(names), UserNames(t[..i], username), t[i].collectionid, t[i].name);
          names := names[t[i].collectionid := t[i].name];
        }
      }
      assert t[..|t|] == t;
      CacheSurvivesLoad(old(names), t, username);
    }

    /**
     * `get_max_timestamp`: 0 for a falsy name, otherwise the latest
     * `modified` of the user's rows in the collection, `None` for SQL NULL.
     */
    method GetMaxTimestamp(collection: string) returns (r: Option<int>)
      requires Valid()
      modifies db
      ensures Valid()
      ensures db.rows == old(db.rows) && db.log == old(db.log)
      ensures !Truthy(collection) ==> r == Some(0) && db.collections == old(db.collections)
      ensures Truthy(collection) ==>
        && Allocates(old(db.collections), db.collections, username, {collection})
        && r == MaxModified(ScopeOf(db.rows, username, IdOf(db.collections, username, collection)))
    {
      if !Truthy(collection) {
        return Some(0);
      }
      var cid := GetCollectionId(collection);
      r := MaxModified(ScopeOf(db.rows, username, cid));
    }

    /**
     * `store_object`: resolves every record's collection, then writes all
     * records in one statement that replaces each row wholesale.  An empty
     * batch makes the statement malformed and a record without an id
     * violates `id NOT NULL`; either way the statement is rejected
     * (`false`, reported as "Database unavailable").
     */
    method StoreObject(wbos: seq<WBO>) returns (ok: bool)
      requires Valid()
      modifies db
      ensures Valid()
      ensures db.log == old(db.log)
      ensures Allocates(old(db.collections), db.collections, username, CollectionNames(wbos))
      ensures ok <==> |wbos| > 0 && forall i :: 0 <= i < |wbos| ==> wbos[i].id.Some?
      ensures !ok ==> db.rows == old(db.rows)
      ensures ok ==> db.rows == Upsert(old(db.rows), Entries(username, db.collections, wbos))
    {
      var cids := ResolveCollections(wbos);
      if |wbos| == 0 {
        return false;
      }
      if exists i :: 0 <= i < |wbos| && wbos[i].id.None? {
        return false;
      }
      var es := seq(|wbos|, i requires 0 <= i < |wbos| => (RowKey(username, cids[i], wbos[i].id.value), RowOf(wbos[i])));
      assert es == Entries(username, db.collections, wbos);
      db.rows := Upsert(db.rows, es);
      ok := true;
    }

    /** The loop of `store_object` that resolves each record's collection in turn. */
    method ResolveCollections(wbos: seq<WBO>) returns (cids: seq<int>)
      requires Valid()
      modifies db
      ensures Valid()
      ensures db.rows == old(db.rows) && db.log == old(db.log)
      ensures Allocates(old(db.collections), db.collections, username, CollectionNames(wbos))
      ensures |cids| == |wbos|
      ensures forall i :: 0 <= i < |wbos| ==> IdOf(db.collections, username, StringOf(wbos[i].collection)) == cids[i]
    {
      cids := [];
      AllocatesNothing(db.collections, username);
      for i := 0 to |wbos|
        invariant Valid()
        invariant db.rows == old(db.rows) && db.log == old(db.log)
        invariant |cids| == i
        invariant Allocates(old(db.collections), db.collections, username, CollectionNames(wbos[..i]))
        invariant forall j :: 0 <= j < i ==> Lookup(db.collections, username, StringOf(wbos[j].collection)) == Some(cids[j])
      {
        ghost var before := db.collections;
        var c := GetCollectionId(StringOf(wbos[i].collection));
        ResolveStep(old(db.collections), before, db.collections, username, wbos, i);
        cids := cids + [c];
      }
      assert wbos[..|wbos|] == wbos;
    }

    /**
     * `update_object`: 0 without a truthy id and collection or without a
     * field to set; otherwise the record is given the current time when it
     * needs a timestamp and has none, and the row with its key, if there is
     * one, takes the present fields.
     */
    method UpdateObject(w: WBO, now: int) returns (res: int, w': WBO)
      requires Valid()
      modifies db
      ensures Valid()
      ensures db.log == old(db.log)
      ensures res == 0 || res == 1
      ensures res == 0 <==> !TruthyOpt(w.id) || !TruthyOpt(w.collection) || !HasUpdateFields(w)
      ensures w' == if TruthyOpt(w.id) && TruthyOpt(w.collection) then WithTimestamp(w, now) else w
      ensures res == 0 ==> db.rows == old(db.rows) && db.collections == old(db.collections)
      ensures res == 1 ==>
        && Allocates(old(db.collections), db.collections, username, {w.collection.value})
        && var key := RowKey(username, IdOf(db.collections, username, w.collection.value), w.id.value);
           db.rows == if key in old(db.rows) then old(db.rows)[key := Merge(old(db.rows)[key], w')] else old(db.rows)
    {
      if !TruthyOpt(w.id) || !TruthyOpt(w.collection) {
        return 0, w;
      }
      w' := w;
      if TouchesModified(w) && w.modified.None? {
        w' := w.(modified := Some(now));
      }
      if !HasUpdateFields(w) {
        return 0, w';
      }
      var cid := GetCollectionId(w.collection.value);
      var key := RowKey(username, cid, w.id.value);
      ghost var before := db.rows;
      if key in db.rows {
        db.rows := db.rows[key := Merge(db.rows[key], w')];
      }
      assert db.rows == if key in before then before[key := Merge(before[key], w')] else before;
      res := 1;
    }

    /** `delete_object`: removes the row with this key, if any. */
    method DeleteObject(collection: string, id: string)
      requires Valid()
      modifies db
      ensures Valid()
      ensures db.log == old(db.log)
      ensures Allocates(old(db.collections), db.collections, username, {collection})
      ensures db.rows == old(db.rows) - {RowKey(username, IdOf(db.collections, username, collection), id)}
    {
      var cid := GetCollectionId(collection);
      db.rows := db.rows - {RowKey(username, cid, id)};
    }

    /**
     * `retrieve_objects`: the records the filtered, ordered and limited
     * select lists, with their rows.  A negative limit or offset makes the
     * statement invalid (`false`).
     */
    method RetrieveObjects(collection: string, f: Filters) returns (ok: bool, ids: seq<string>, records: seq<Row>)
      requires Valid()
      modifies db
      ensures Valid()
      ensures db.rows == old(db.rows) && db.log == old(db.log)
      ensures Allocates(old(db.collections), db.collections, username, {collection})
      ensures ok <==> WindowValid(f)
      ensures !ok ==> ids == [] && records == []
      ensures ok ==> var s := ScopeOf(db.rows, username, IdOf(db.collections, username, collection));
        && IsListing(s, f, ids)
        && |records| == |ids|
        && forall i :: 0 <= i < |ids| ==> ids[i] in s && records[i] == s[ids[i]]
    {
      var cid := GetCollectionId(collection);
      if !WindowValid(f) {
        return false, [], [];
      }
      var s := ScopeOf(db.rows, username, cid);
      ids := Select(s, f);
      ListingProperties(s, f, ids);
      assert forall i :: 0 <= i < |ids| ==> ids[i] in Elems(ids);
      records := seq(|ids|, i requires 0 <= i < |ids| => s[ids[i]]);
      ok := true;
    }

    /**
     * `delete_objects`: deletes the rows the same filtered statement
     * selects.  MySQL's DELETE takes ORDER BY and LIMIT but no OFFSET, so a
     * limit with a truthy offset, like a negative limit, makes the
     * statement invalid (`false`).  `deleted` is the listing removed.
     */
    method DeleteObjects(collection: string, f: Filters) returns (ok: bool, ghost deleted: seq<string>)
      requires Valid()
      modifies db
      ensures Valid()
      ensures db.log == old(db.log)
      ensures Allocates(old(db.collections), db.collections, username, {collection})
      ensures ok <==> WindowValid(f) && !(HasLimit(f) && f.offset.Some?)
      ensures !ok ==> db.rows == old(db.rows)
      ensures ok ==> var cid := IdOf(db.collections, username, collection);
        && IsListing(ScopeOf(old(db.rows), username, cid), f, deleted)
        && db.rows == Without(old(db.rows), username, cid, Elems(deleted))
    {
      deleted := [];
      var cid := GetCollectionId(collection);
      assert IdOf(db.collections, username, collection) == cid;
      if !WindowValid(f) || (HasLimit(f) && f.offset.Some?) {
        return false, deleted;
      }
      var r := Select(ScopeOf(db.rows, username, cid), f);
      deleted := r;
      RemoveRows(r, cid);
      ok := true;
    }

    /** The DELETE statement itself: the listed records of one collection go. */
    method RemoveRows(ids: seq<string>, cid: int)
      requires Valid()
      modifies db
      ensures Valid()
      ensures db.collections == old(db.collections) && db.log == old(db.log)
      ensures db.rows == Without(old(db.rows), username, cid, Elems(ids))
    {
      db.rows := Without(db.rows, username, cid, Elems(ids));
    }

    /** `delete_user`: removes every row of the user; the collections table is kept. */
    method DeleteUser()
      modifies db
      ensures db.collections == old(db.collections) && db.log == old(db.log)
      ensures forall k :: k in db.rows <==> k in old(db.rows) && k.username != username
      ensures forall k :: k in db.rows ==> db.rows[k] == old(db.rows)[k]
    {
      db.rows := map k | k in db.rows && k.username != username :: db.rows[k];
    }

    /**
     * The name cache after a listing: names the listed groups by id,
     * reloading the user's mappings the first time an id is not cached and
     * dropping ids that are still unknown afterwards.
     */
    method NameGroups<V>(groups: seq<int>, agg: map<int, V>) returns (result: map<string, V>)
      requires Valid()
      requires Distinct(groups) && Elems(groups) <= agg.Keys
      modifies this
      ensures Valid()
      ensures names == old(names) || names == old(names) + UserNames(db.collections, username)
      ensures (forall i :: 0 <= i < |groups| ==> groups[i] in old(names)) ==> names == old(names)
      ensures forall i :: 0 <= i < |groups| && groups[i] in UserNames(db.collections, username) ==> groups[i] in names
      ensures forall i :: 0 <= i < |groups| && groups[i] in names ==>
        names[groups[i]] in result && result[names[groups[i]]] == agg[groups[i]]
      ensures forall n :: n in result ==> exists i :: 0 <= i < |groups| && groups[i] in names && names[groups[i]] == n
    {
      assert forall j :: 0 <= j < |groups| ==> groups[j] in Elems(groups);
      result := map[];
      var loaded := false;
      for i := 0 to |groups|
        invariant Valid()
        invariant !loaded ==> names == old(names) && forall j :: 0 <= j < i ==> groups[j] in names
        invariant loaded ==> names == old(names) + UserNames(db.collections, username)
        invariant loaded ==> exists j :: 0 <= j < i && groups[j] !in old(names)
        invariant result == NamedAggregates(groups[..i], agg, names)
      {
        var c := groups[i];
        if c !in names && !loaded {
          ghost var before := names;
          LoadKeepsCached(names, db.collections, username);
          LoadUserCollections();
          AgreeOnPrefix(groups, i, before, names);
          NamedAggregatesAgree(groups[..i], agg, before, names);
          loaded := true;
        }
        NamedAggregatesSnoc(groups, i, agg, names);
        if c in names {
          result := result[names[c] := agg[c]];
        }
      }
      assert groups[..|groups|] == groups;
      assert forall j :: 0 <= j < |groups| && groups[j] in names ==>
        names[groups[j]] in result && result[names[groups[j]]] == agg[groups[j]]
      by {
        CacheInjective(names, db.collections, username);
        NamedAggregatesSound(groups, agg, names);
      }
      assert forall n :: n in result ==> exists j :: 0 <= j < |groups| && groups[j] in names && names[groups[j]] == n
      by {
        CacheInjective(names, db.collections, username);
        NamedAggregatesSound(groups, agg, names);
      }
    }

    /** `get_collection_list_with_timestamps`: each named collection's latest `modified`. */
    method GetCollectionListWithTimestamps() returns (result: map<string, Option<int>>)
      requires Valid()
      modifies this
      ensures Valid()
      ensures names == old(names) || names == old(names) + UserNames(db.collections, username)
      ensures (forall c :: c in CollectionsOf(db.rows, username) ==> c in old(names)) ==> names == old(names)
      ensures forall c :: c in CollectionsOf(db.rows, username) && c in UserNames(db.collections, username) ==> c in names
      ensures forall c :: c in CollectionsOf(db.rows, username) && c in names ==>
        names[c] in result && result[names[c]] == MaxModified(ScopeOf(db.rows, username, c))
      ensures forall n :: n in result ==> exists c :: c in CollectionsOf(db.rows, username) && c in names && names[c] == n
    {
      var groups := Groups(db.rows, username);
      var agg := map c | c in CollectionsOf(db.rows, username) :: MaxModified(ScopeOf(db.rows, username, c));
      assert forall i :: 0 <= i < |groups| ==> groups[i] in Elems(groups);
      result := NameGroups(groups, agg);
      GroupsCover(groups, db.rows, username);
    }

    /** `get_collection_list_with_counts`: each named collection's number of rows. */
    method GetCollectionListWithCounts() returns (result: map<string, nat>)
      requires Valid()
      modifies this
      ensures Valid()
      ensures names == old(names) || names == old(names) + UserNames(db.collections, username)
      ensures (forall c :: c in CollectionsOf(db.rows, username) ==> c in old(names)) ==> names == old(names)
      ensures forall c :: c in CollectionsOf(db.rows, username) && c in UserNames(db.collections, username) ==> c in names
      ensures forall c :: c in CollectionsOf(db.rows, username) && c in names ==>
        names[c] in result && result[names[c]] == |ScopeOf(db.rows, username, c)|
      ensures forall n :: n in result ==> exists c :: c in CollectionsOf(db.rows, username) && c in names && names[c] == n
    {
      var groups := Groups(db.rows, username);
      var agg := map c | c in CollectionsOf(db.rows, username) :: |ScopeOf(db.rows, username, c)|;
      assert forall i :: 0 <= i < |groups| ==> groups[i] in Elems(groups);
      result := NameGroups(groups, agg);
      GroupsCover(groups, db.rows, username);
    }
  }

  lemma GroupsCover(groups: seq<int>, rows: Rows, user: string)
    requires Elems(groups) == CollectionsOf(rows, user)
    ensures forall c :: c in CollectionsOf(rows, user) ==> exists i :: 0 <= i < |groups| && groups[i] == c
  {
  }

  ghost function CollectionsIn(ks: set<RowKey>): set<int> {
    set k | k in ks :: k.collection
  }

  /** The database evaluating `group by collection`: each of the user's collection ids once. */
  method Groups(rows: Rows, user: string) returns (cs: seq<int>)
    ensures Distinct(cs) && Elems(cs) == CollectionsOf(rows, user)
  {
    var pending := set k | k in rows && k.username == user;
    cs := [];
    while pending != {}
      invariant pending <= rows.Keys
      invariant forall k :: k in pending ==> k.username == user
      invariant Distinct(cs)
      invariant Elems(cs) + CollectionsIn(pending) == CollectionsOf(rows, user)
      decreases |pending|
    {
      var k :| k in pending;
      assert CollectionsIn(pending) == CollectionsIn(pending - {k}) + {k.collection} by {
        forall c | c in CollectionsIn(pending) ensures c in CollectionsIn(pending - {k}) + {k.collection} {
          var k' :| k' in pending && k'.collection == c;
          if k' != k {
            assert k' in pending - {k};
          }
        }
      }
      if k.collection !in Elems(cs) {
        assert forall i :: 0 <= i < |cs| ==> (cs + [k.collection])[i] == cs[i];
        assert Elems(cs + [k.collection]) == Elems(cs) + {k.collection} by {
          forall c | c in Elems(cs) ensures c in Elems(cs + [k.collection]) {
            var i :| 0 <= i < |cs| && cs[i] == c;
            assert (cs + [k.collection])[i] == c;
          }
          assert (cs + [k.collection])[|cs|] == k.collection;
        }
        cs := cs + [k.collection];
      }
      pending := pending - {k};
    }
  }
}
