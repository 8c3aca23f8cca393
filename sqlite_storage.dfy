/**
 * `WeaveStorageSqlite`: the same record store over a per-user SQLite file,
 * whose `wbo` table is keyed by (collection name, id).  SQLite takes no
 * ORDER BY or LIMIT on DELETE, so `delete_objects` with a sort, limit or
 * offset first lists the ids with `retrieve_objects` and then deletes
 * exactly those.
 *
 * SQLite reads a negative LIMIT as "no upper bound" and a negative OFFSET
 * as zero, where MySQL rejects both.
 */
module SqliteStorage {
  import opened Wrappers
  import opened Php
  import opened Records
  import opened Query

  /** The primary key of the per-user `wbo` table. */
  datatype SqlKey = SqlKey(collection: string, id: string)

  type SqlRows = map<SqlKey, Row>

  /** The rows of one collection, by record id. */
  function ScopeIn(rows: SqlRows, collection: string): (s: Scope)
    ensures forall id :: id in s <==> SqlKey(collection, id) in rows
    ensures forall id :: id in s ==> s[id] == rows[SqlKey(collection, id)]
  {
    map k | k in rows && k.collection == collection :: k.id := rows[k]
  }

  /** The rows left after deleting the records `ids` of one collection. */
  function RemoveIds(rows: SqlRows, collection: string, ids: set<string>): (r: SqlRows)
    ensures forall k :: k in r <==> k in rows && !(k.collection == collection && k.id in ids)
    ensures forall k :: k in r ==> r[k] == rows[k]
  {
    map k | k in rows && !(k.collection == collection && k.id in ids) :: rows[k]
  }

  /**
   * The LIMIT and OFFSET SQLite applies: a negative limit becomes `bound`
   * (at least the number of rows, so no bound at all) and a negative offset
   * becomes zero; every other filter is kept.
   */
  function SqliteWindow(f: Filters, bound: nat): (g: Filters)
    ensures WindowValid(g)
    ensures g.(limit := f.limit, offset := f.offset) == f
    ensures HasLimit(g) <==> HasLimit(f)
    ensures HasLimit(f) ==> g.limit.value == if f.limit.value < 0 then bound else f.limit.value
    ensures g.offset.Some? <==> f.offset.Some?
    ensures f.offset.Some? ==> g.offset.value == if f.offset.value < 0 then 0 else f.offset.value
  {
    f.(limit := if f.limit.Some? && f.limit.value < 0 then Some(bound) else f.limit,
       offset := if f.offset.Some? && f.offset.value < 0 then Some(0) else f.offset)
  }

  /** Whether `delete_objects` takes the select-then-delete path: a truthy limit, offset or sort. */
  predicate SelectsFirst(f: Filters) {
    f.limit.Some? || f.offset.Some? || TruthyOpt(f.sort)
  }

  /** Selected ids are ids of the scope. */
  lemma MatchSetInScope(s: Scope, f: Filters)
    ensures MatchSet(s, f) <= s.Keys && |MatchSet(s, f)| <= |s|
  {
    assert s.Keys == MatchSet(s, f) + (s.Keys - MatchSet(s, f));
  }

  /**
   * A valid window is used as given; a negative limit lists every selected
   * row past the offset, and a negative offset skips nothing.
   */
  lemma SqliteWindowMeaning(s: Scope, f: Filters, r: seq<string>)
    requires IsListing(s, SqliteWindow(f, |s|), r)
    ensures WindowValid(f) && (f.offset.Some? ==> f.offset.value >= 0) ==> SqliteWindow(f, |s|) == f
    ensures var n := |MatchSet(s, f)|;
      var skip := if HasLimit(f) && f.offset.Some? && f.offset.value > 0 then f.offset.value else 0;
      HasLimit(f) && f.limit.value < 0 ==> |r| == if skip <= n then n - skip else 0
    ensures Elems(r) <= MatchSet(s, f) && Distinct(r) && InOrder(s, r, f.sort)
  {
    var g := SqliteWindow(f, |s|);
    assert MatchSet(s, g) == MatchSet(s, f);
    ListingProperties(s, g, r);
    MatchSetInScope(s, f);
  }

  /**
   * Without a limit, offset or sort, every listing `retrieve_objects` may
   * return holds exactly the rows the direct DELETE removes.
   */
  lemma DirectDeleteIsRetrieve(s: Scope, f: Filters, r: seq<string>)
    requires !SelectsFirst(f) && IsListing(s, SqliteWindow(f, |s|), r)
    ensures Elems(r) == MatchSet(s, f)
  {
    assert SqliteWindow(f, |s|) == f;
    ListingWithoutLimit(s, f, r);
  }

  class WeaveStorageSqlite {
    /** The `wbo` table of the user's database file. */
    var rows: SqlRows

    constructor(rows: SqlRows)
      ensures this.rows == rows
    {
      this.rows := rows;
    }

    /**
     * `retrieve_objects` listing ids only (`full` and `direct_output`
     * unset): the filtered, ordered select under SQLite's LIMIT and OFFSET.
     */
    method RetrieveIds(collection: string, f: Filters) returns (ids: seq<string>)
      ensures var s := ScopeIn(rows, collection); IsListing(s, SqliteWindow(f, |s|), ids)
    {
      var s := ScopeIn(rows, collection);
      ids := Select(s, SqliteWindow(f, |s|));
    }

    /**
     * `delete_objects`.  With a truthy limit, offset or sort it deletes
     * exactly the ids `retrieve_objects` lists (`deleted`), nothing when
     * that list is empty; otherwise one DELETE removes every row the filter
     * selects.  The result is 1 either way and is not modelled.
     */
    method DeleteObjects(collection: string, f: Filters) returns (ghost deleted: seq<string>)
      modifies this
      ensures var s := ScopeIn(old(rows), collection);
        SelectsFirst(f) ==> IsListing(s, SqliteWindow(f, |s|), deleted)
      ensures SelectsFirst(f) ==> rows == RemoveIds(old(rows), collection, Elems(deleted))
      ensures SelectsFirst(f) && deleted == [] ==> rows == old(rows)
      ensures !SelectsFirst(f) ==> rows == RemoveIds(old(rows), collection, MatchSet(ScopeIn(old(rows), collection), f))
    {
      deleted := [];
      if SelectsFirst(f) {
        var ids := RetrieveIds(collection, f);
        deleted := ids;
        if |ids| == 0 {
          assert RemoveIds(rows, collection, Elems(ids)) == rows;
          return;
        }
        rows := RemoveIds(rows, collection, Elems(ids));
      } else {
        rows := RemoveIds(rows, collection, MatchSet(ScopeIn(rows, collection), f));
      }
    }
  }

  // ---- The statements as the source writes them ----

  /**
   * As written, the direct DELETE (no limit, offset or sort) compares
   * `predecessorid` with the `$parentid` argument, which is NULL, and so
   * never equal, when no parentid is given; the index bounds likewise
   * compare with `$parentid`.
   */
  predicate DirectDeleteMatchesAsWritten(id: string, r: Row, f: Filters, asNumber: string -> int) {
    && IdClauses(id, f) && ParentClause(r, f)
    && (TruthyOpt(f.predecessorid) ==> f.parentid.Some? && r.predecessorid == Some(f.parentid.value))
    && IndexClausesAsWritten(r, f, asNumber) && TimeClauses(r, f)
  }

  /**
   * As written, deleting by `predecessorid` alone removes nothing, although
   * `retrieve_objects` with the same filter lists the row.
   */
  lemma PredecessorBindingCounterexample(asNumber: string -> int)
    ensures var f := NoFilters.(predecessorid := Some("p"));
      var r := Row(None, Some("p"), None, Some(100), None, None);
      !SelectsFirst(f) && Matches("a", r, f) && !DirectDeleteMatchesAsWritten("a", r, f, asNumber)
  {
  }

  /**
   * SQLite `update_object` as written, for a record already given its
   * timestamp: `None` when it returns 0 without a statement, otherwise the
   * row after the UPDATE.  `predecessorid` is written exactly when
   * `parentid` is present, and so does not count as a field of its own.
   */
  function UpdateAsWritten(row: Row, w: WBO): Option<Row> {
    if !TruthyOpt(w.id) || !TruthyOpt(w.collection) then None
    else if !(w.parentid.Some? || w.sortindex.Some? || w.payload.Some?) then None
    else Some(Row(
      if w.parentid.Some? then w.parentid else row.parentid,
      if w.parentid.Some? then w.predecessorid else row.predecessorid,
      if w.sortindex.Some? then w.sortindex else row.sortindex,
      if TouchesModified(w) then w.modified else row.modified,
      if w.payload.Some? then w.payload else row.payload,
      if w.payload.Some? then PayloadSize(w.payload) else row.payloadSize))
  }

  /**
   * As written, a predecessorid-only update does nothing, and an update
   * with a parentid but no predecessorid clears the stored predecessorid;
   * the intended `Records.Merge` sets and keeps it.
   */
  lemma UpdateGatingCounterexample(row: Row)
    requires row.predecessorid == Some("x")
    ensures var w := WBO(Some("a"), Some("c"), None, Some("p"), None, None, None);
      UpdateAsWritten(row, w).None? && HasUpdateFields(w) && Merge(row, w).predecessorid == Some("p")
    ensures var w := WBO(Some("a"), Some("c"), Some("q"), None, None, Some(5), None);
      UpdateAsWritten(row, w).Some? && UpdateAsWritten(row, w).value.predecessorid.None?
      && Merge(row, w).predecessorid == Some("x")
  {
  }

  /** Where `predecessorid` rides with `parentid` anyway, the source's update is the intended merge. */
  lemma UpdateAsWrittenAgreesWithMerge(row: Row, w: WBO)
    requires TruthyOpt(w.id) && TruthyOpt(w.collection)
    requires w.parentid.Some? <==> w.predecessorid.Some?
    ensures UpdateAsWritten(row, w) == if HasUpdateFields(w) then Some(Merge(row, w)) else None
  {
  }
}
