/**
 * The meaning of the statements that `retrieve_objects` and `delete_objects`
 * build: one conjunctive filter over the rows of a single (user, collection),
 * an optional ordering, then limit and offset.
 *
 * SQL leaves the order of rows that tie on the sort key (and of all rows when
 * there is no sort) unspecified, so a result is described relationally: a
 * listing is a window of SOME enumeration of the matching rows that respects
 * the ordering.  A string filter follows PHP truthiness ("", "0" and absent
 * mean "no filter"); a numeric filter is `Some` exactly when the caller's
 * value was truthy, and then holds the number the statement compares with.
 * `limit` and `offset` hold what `intval` made of a truthy value, which may
 * be negative.
 */
module Query {
  import opened Wrappers
  import opened Php
  import opened Records

  /** The optional parameters shared by `retrieve_objects` and `delete_objects`. */
  datatype Filters = Filters(
    id: Option<string>,
    ids: seq<string>,
    parentid: Option<string>,
    predecessorid: Option<string>,
    newer: Option<int>,
    older: Option<int>,
    sort: Option<string>,
    limit: Option<int>,
    offset: Option<int>,
    indexAbove: Option<int>,
    indexBelow: Option<int>)

  const NoFilters: Filters := Filters(None, [], None, None, None, None, None, None, None, None, None)

  /** The rows of one (user, collection), by record id. */
  type Scope = map<string, Row>

  /** `col > v` in SQL: false when the column is NULL. */
  predicate Above(col: Option<int>, v: int) {
    col.Some? && col.value > v
  }

  /** `col < v` in SQL: false when the column is NULL. */
  predicate Below(col: Option<int>, v: int) {
    col.Some? && col.value < v
  }

  predicate IdClauses(id: string, f: Filters) {
    && (TruthyOpt(f.id) ==> id == f.id.value)
    && (|f.ids| > 0 ==> id in f.ids)
  }

  predicate ParentClause(r: Row, f: Filters) {
    TruthyOpt(f.parentid) ==> r.parentid == Some(f.parentid.value)
  }

  predicate PredecessorClause(r: Row, f: Filters) {
    TruthyOpt(f.predecessorid) ==> r.predecessorid == Some(f.predecessorid.value)
  }

  /**
   * The sortindex range, compared with `index_above` and `index_below`
   * themselves.  The source binds `$parentid` in their place; this is the
   * intended binding (see `IndexClausesAsWritten`).
   */
  predicate IndexClauses(r: Row, f: Filters) {
    && (f.indexAbove.Some? ==> Above(r.sortindex, f.indexAbove.value))
    && (f.indexBelow.Some? ==> Below(r.sortindex, f.indexBelow.value))
  }

  predicate TimeClauses(r: Row, f: Filters) {
    && (f.newer.Some? ==> Above(r.modified, f.newer.value))
    && (f.older.Some? ==> Below(r.modified, f.older.value))
  }

  /** The WHERE clause beyond `username = ? and collection = ?`. */
  predicate Matches(id: string, r: Row, f: Filters) {
    IdClauses(id, f) && ParentClause(r, f) && PredecessorClause(r, f) && IndexClauses(r, f) && TimeClauses(r, f)
  }

  /** The ids of the rows the WHERE clause selects. */
  function MatchSet(s: Scope, f: Filters): set<string> {
    set id | id in s && Matches(id, s[id], f)
  }

  /** SQL order on a nullable integer: NULL comes before every value. */
  predicate OptLess(a: Option<int>, b: Option<int>) {
    (a.None? && b.Some?) || (a.Some? && b.Some? && a.value < b.value)
  }

  /**
   * Whether the ORDER BY puts row `a` strictly before row `b`: `index` is
   * sortindex descending, `newest` modified descending, `oldest` modified
   * ascending; any other value orders nothing.
   */
  predicate Before(a: Row, b: Row, sort: Option<string>) {
    if sort == Some("index") then OptLess(b.sortindex, a.sortindex)
    else if sort == Some("newest") then OptLess(b.modified, a.modified)
    else if sort == Some("oldest") then OptLess(a.modified, b.modified)
    else false
  }

  predicate Distinct<T(==)>(xs: seq<T>) {
    forall i, j :: 0 <= i < j < |xs| ==> xs[i] != xs[j]
  }

  function Elems<T>(xs: seq<T>): set<T> {
    set i | 0 <= i < |xs| :: xs[i]
  }

  /** No id comes after one that the ordering puts strictly before it. */
  predicate InOrder(s: Scope, xs: seq<string>, sort: Option<string>)
    requires Elems(xs) <= s.Keys
  {
    forall i, j :: 0 <= i < j < |xs| ==> !Before(s[xs[j]], s[xs[i]], sort)
  }

  /** `all` lists every selected row once, in an order the ORDER BY allows. */
  predicate Enumerates(s: Scope, f: Filters, all: seq<string>) {
    Distinct(all) && Elems(all) == MatchSet(s, f) && InOrder(s, all, f.sort)
  }

  /** A `limit` clause is written only for a truthy limit. */
  predicate HasLimit(f: Filters) {
    f.limit.Some?
  }

  /** The statement is well-formed: a written limit, and an offset inside it, is not negative. */
  predicate WindowValid(f: Filters) {
    HasLimit(f) ==> f.limit.value >= 0 && (f.offset.Some? ==> f.offset.value >= 0)
  }

  /** `offset` is applied only inside a truthy `limit`. */
  function Skip(f: Filters): nat
    requires WindowValid(f)
  {
    if HasLimit(f) && f.offset.Some? then f.offset.value else 0
  }

  function Min(a: int, b: int): int {
    if a <= b then a else b
  }

  /** LIMIT and OFFSET applied to an ordered result. */
  function Window(all: seq<string>, f: Filters): (r: seq<string>)
    requires WindowValid(f)
    ensures HasLimit(f) ==> |r| == Min(f.limit.value, if Skip(f) <= |all| then |all| - Skip(f) else 0)
    ensures !HasLimit(f) ==> r == all
  {
    if HasLimit(f) then all[Min(Skip(f), |all|)..Min(Skip(f) + f.limit.value, |all|)] else all
  }

  /** `r` is a result the statement may produce on the rows `s`. */
  ghost predicate IsListing(s: Scope, f: Filters, r: seq<string>) {
    WindowValid(f) && exists all :: Enumerates(s, f, all) && r == Window(all, f)
  }

  lemma BeforeIsStrictOrder(a: Row, b: Row, c: Row, sort: Option<string>)
    ensures !Before(a, a, sort)
    ensures Before(a, b, sort) && Before(b, c, sort) ==> Before(a, c, sort)
  {
  }

  /** Every finite set of rows has an element nothing is ordered before. */
  lemma {:induction false} MinimalExists(s: Scope, ks: set<string>, sort: Option<string>)
    requires ks != {} && ks <= s.Keys
    ensures exists m :: m in ks && forall y :: y in ks ==> !Before(s[y], s[m], sort)
    decreases |ks|
  {
    var x :| x in ks;
    var rest := ks - {x};
    if rest == {} {
      assert ks == {x};
      BeforeIsStrictOrder(s[x], s[x], s[x], sort);
    } else {
      MinimalExists(s, rest, sort);
      var m :| m in rest && forall y :: y in rest ==> !Before(s[y], s[m], sort);
      if Before(s[x], s[m], sort) {
        forall y | y in ks ensures !Before(s[y], s[x], sort) {
          BeforeIsStrictOrder(s[y], s[x], s[m], sort);
        }
      } else {
        assert forall y :: y in ks ==> !Before(s[y], s[m], sort);
      }
    }
  }

  /**
   * A partial evaluation of the ORDER BY: `all` lists rows taken so far,
   * in order, and none of the `pending` rows belongs before any of them.
   */
  ghost predicate SortedPrefix(s: Scope, f: Filters, all: seq<string>, pending: set<string>) {
    && Elems(all) + pending == MatchSet(s, f)
    && Elems(all) !! pending
    && Distinct(all)
    && InOrder(s, all, f.sort)
    && forall i, y :: 0 <= i < |all| && y in pending ==> !Before(s[y], s[all[i]], f.sort)
  }

  /** Taking a row nothing pending is ordered before extends a sorted prefix. */
  lemma SortedPrefixStep(s: Scope, f: Filters, all: seq<string>, pending: set<string>, m: string)
    requires SortedPrefix(s, f, all, pending)
    requires m in pending && forall y :: y in pending ==> !Before(s[y], s[m], f.sort)
    ensures SortedPrefix(s, f, all + [m], pending - {m})
  {
    var all' := all + [m];
    assert forall i :: 0 <= i < |all| ==> all'[i] == all[i];
    assert Elems(all') == Elems(all) + {m} by {
      assert all'[|all|] == m;
      forall x | x in Elems(all) ensures x in Elems(all') {
        var i :| 0 <= i < |all| && all[i] == x;
        assert all'[i] == x;
      }
    }
    forall i, j | 0 <= i < j < |all'| ensures all'[i] != all'[j] && !Before(s[all'[j]], s[all'[i]], f.sort) {
      if j == |all| {
        assert all'[i] in Elems(all);
      }
    }
  }

  /**
   * The database evaluating the statement: the selected rows are listed in
   * an order the ORDER BY allows, rows that tie coming in any order, and
   * the listing is then cut by LIMIT and OFFSET.
   */
  method Select(s: Scope, f: Filters) returns (r: seq<string>)
    requires WindowValid(f)
    ensures IsListing(s, f, r)
  {
    var pending := MatchSet(s, f);
    var all: seq<string> := [];
    while pending != {}
      invariant SortedPrefix(s, f, all, pending)
      decreases |pending|
    {
      MinimalExists(s, pending, f.sort);
      var m :| m in pending && forall y :: y in pending ==> !Before(s[y], s[m], f.sort);
      SortedPrefixStep(s, f, all, pending, m);
      all := all + [m];
      pending := pending - {m};
    }
    assert Enumerates(s, f, all);
    r := Window(all, f);
  }

  lemma {:induction false} DistinctCard(xs: seq<string>)
    requires Distinct(xs)
    ensures |Elems(xs)| == |xs|
    decreases |xs|
  {
    if |xs| > 0 {
      var t := xs[..|xs| - 1];
      assert Distinct(t);
      DistinctCard(t);
      assert Elems(xs) == Elems(t) + {xs[|xs| - 1]};
      assert xs[|xs| - 1] !in Elems(t);
    }
  }

  /** A slice of a duplicate-free, ordered list is duplicate-free and ordered. */
  lemma SliceKeepsOrder(s: Scope, all: seq<string>, lo: int, hi: int, sort: Option<string>)
    requires Elems(all) <= s.Keys && Distinct(all) && InOrder(s, all, sort)
    requires 0 <= lo <= hi <= |all|
    ensures Elems(all[lo..hi]) <= Elems(all)
    ensures Distinct(all[lo..hi]) && InOrder(s, all[lo..hi], sort)
  {
    var w := all[lo..hi];
    assert forall i :: 0 <= i < |w| ==> w[i] == all[lo + i];
  }

  /**
   * Every result lists selected rows only, each once, in an order the ORDER
   * BY allows, and as many as LIMIT and OFFSET leave of the selection.
   */
  lemma ListingProperties(s: Scope, f: Filters, r: seq<string>)
    requires IsListing(s, f, r)
    ensures Elems(r) <= MatchSet(s, f)
    ensures Distinct(r) && InOrder(s, r, f.sort)
    ensures var n := |MatchSet(s, f)|;
      |r| == if HasLimit(f) then Min(f.limit.value, if Skip(f) <= n then n - Skip(f) else 0) else n
  {
    var all :| Enumerates(s, f, all) && r == Window(all, f);
    DistinctCard(all);
    if HasLimit(f) {
      SliceKeepsOrder(s, all, Min(Skip(f), |all|), Min(Skip(f) + f.limit.value, |all|), f.sort);
    }
  }

  /** Without a truthy limit, a result lists exactly the selected rows. */
  lemma ListingWithoutLimit(s: Scope, f: Filters, r: seq<string>)
    requires !HasLimit(f) && IsListing(s, f, r)
    ensures Elems(r) == MatchSet(s, f) && Distinct(r)
  {
  }

  /** Asking for one truthy id lists that record if it exists, and nothing otherwise. */
  lemma SingleIdListing(s: Scope, id: string, r: seq<string>)
    requires Truthy(id) && IsListing(s, NoFilters.(id := Some(id)), r)
    ensures r == if id in s then [id] else []
  {
    var f := NoFilters.(id := Some(id));
    assert MatchSet(s, f) == if id in s then {id} else {};
    ListingWithoutLimit(s, f, r);
    DistinctCard(r);
    if id in s {
      assert r[0] in Elems(r);
    }
  }

  /**
   * With a limit and no offset, a result is a top slice: no selected row it
   * leaves out is ordered before a row it lists.
   */
  lemma ListingIsTopRows(s: Scope, f: Filters, r: seq<string>, out: string, inside: string)
    requires IsListing(s, f, r) && HasLimit(f) && Skip(f) == 0
    requires out in MatchSet(s, f) - Elems(r) && inside in Elems(r)
    ensures inside in s && !Before(s[out], s[inside], f.sort)
  {
    var all :| Enumerates(s, f, all) && r == Window(all, f);
    var hi := Min(f.limit.value, |all|);
    assert r == all[..hi];
    var j :| 0 <= j < |r| && r[j] == inside;
    assert out in Elems(all);
    var k :| 0 <= k < |all| && all[k] == out;
    assert all[j] == inside;
    assert inside in Elems(all);
  }

  // ---- Aggregates ----

  /** No row of `ks` has a later timestamp than row `m`. */
  ghost predicate Latest(s: Scope, ks: set<string>, m: string)
    requires ks <= s.Keys && m in s && s[m].modified.Some?
  {
    forall id :: id in ks && s[id].modified.Some? ==> s[id].modified.value <= s[m].modified.value
  }

  /** Among rows with a timestamp, some row has the latest. */
  lemma {:induction false} LatestExists(s: Scope, ks: set<string>)
    requires ks <= s.Keys
    requires exists id :: id in ks && s[id].modified.Some?
    ensures exists m :: m in ks && s[m].modified.Some? && Latest(s, ks, m)
    decreases |ks|
  {
    var x :| x in ks && s[x].modified.Some?;
    var rest := ks - {x};
    if exists id :: id in rest && s[id].modified.Some? {
      LatestExists(s, rest);
      var m :| m in rest && s[m].modified.Some? && Latest(s, rest, m);
      var top := if s[m].modified.value < s[x].modified.value then x else m;
      forall id | id in ks && s[id].modified.Some? ensures s[id].modified.value <= s[top].modified.value {
        if id != x {
          assert id in rest;
        }
      }
    } else {
      assert forall id :: id in ks && s[id].modified.Some? ==> id == x;
    }
  }

  /** When some row has a timestamp, the timestamps have a largest element. */
  lemma LargestTimestampExists(s: Scope, vs: set<int>)
    requires vs == set id | id in s && s[id].modified.Some? :: s[id].modified.value
    requires exists id :: id in s && s[id].modified.Some?
    ensures exists v :: v in vs && forall w :: w in vs ==> w <= v
  {
    LatestExists(s, s.Keys);
    var m :| m in s && s[m].modified.Some? && Latest(s, s.Keys, m);
    assert s[m].modified.value in vs;
  }

  /**
   * `select max(modified)` over one (user, collection): the largest
   * timestamp, and NULL when no row has one.
   */
  function MaxModified(s: Scope): (r: Option<int>)
    ensures r.None? <==> forall id :: id in s ==> s[id].modified.None?
    ensures r.Some? ==> exists id :: id in s && s[id].modified == r
    ensures r.Some? ==> forall id :: id in s && s[id].modified.Some? ==> s[id].modified.value <= r.value
  {
    var vs := set id | id in s && s[id].modified.Some? :: s[id].modified.value;
    if forall id :: id in s ==> s[id].modified.None? then None
    else
      LargestTimestampExists(s, vs);
      var m :| m in vs && forall v :: v in vs ==> v <= m;
      assert forall id :: id in s && s[id].modified.Some? ==> s[id].modified.value in vs;
      Some(m)
  }

  // ---- The index bounds as the source binds them ----

  /**
   * As written, both index bounds compare sortindex with the `$parentid`
   * argument: SQL NULL when no parentid is given, otherwise that string
   * converted to a number by the database (`asNumber`).
   */
  predicate IndexClausesAsWritten(r: Row, f: Filters, asNumber: string -> int) {
    && (f.indexAbove.Some? ==> f.parentid.Some? && Above(r.sortindex, asNumber(f.parentid.value)))
    && (f.indexBelow.Some? ==> f.parentid.Some? && Below(r.sortindex, asNumber(f.parentid.value)))
  }

  predicate MatchesAsWritten(id: string, r: Row, f: Filters, asNumber: string -> int) {
    IdClauses(id, f) && ParentClause(r, f) && PredecessorClause(r, f)
      && IndexClausesAsWritten(r, f, asNumber) && TimeClauses(r, f)
  }

  /** As written, `index_above` without a parentid selects nothing, even a row far above the bound. */
  lemma IndexBindingCounterexample(asNumber: string -> int)
    ensures var f := NoFilters.(indexAbove := Some(3));
      var r := Row(None, None, Some(5), Some(100), None, None);
      Matches("a", r, f) && !MatchesAsWritten("a", r, f, asNumber)
  {
  }

  /** With the intended binding, the index bounds select exactly the open sortindex range. */
  lemma IndexBoundsSelectRange(id: string, r: Row, lo: int, hi: int)
    ensures var f := NoFilters.(indexAbove := Some(lo), indexBelow := Some(hi));
      Matches(id, r, f) <==> r.sortindex.Some? && lo < r.sortindex.value < hi
  {
  }
}
