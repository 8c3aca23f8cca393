/**
 * The Weave Basic Object (WBO) as the request handler builds it, and the row
 * of the `wbo` table it is written to.  Every optional field is an `Option`:
 * a field "exists" exactly when it is `Some`.  Timestamps are integers
 * counting hundredths of a second, so rounding to two decimals is the
 * identity.  A payload is an opaque byte string.
 */
module Records {
  import opened Wrappers

  type Bytes = seq<bv8>

  /** The per-user quota in kilobytes. */
  const WEAVE_QUOTA: nat := 5000

  datatype WBO = WBO(
    id: Option<string>,
    collection: Option<string>,
    parentid: Option<string>,
    predecessorid: Option<string>,
    sortindex: Option<int>,
    modified: Option<int>,
    payload: Option<Bytes>)

  /** One row of the `wbo` table, less its key; every column is nullable. */
  datatype Row = Row(
    parentid: Option<string>,
    predecessorid: Option<string>,
    sortindex: Option<int>,
    modified: Option<int>,
    payload: Option<Bytes>,
    payloadSize: Option<nat>)

  /** `payload_size` is derived from the payload, never supplied. */
  function PayloadSize(payload: Option<Bytes>): (r: Option<nat>)
    ensures r.Some? <==> payload.Some?
    ensures payload.Some? ==> r.value == |payload.value|
  {
    match payload
    case None => None
    case Some(p) => Some(|p|)
  }

  /** The row that `store_object` writes for `w`: every column replaced. */
  function RowOf(w: WBO): Row {
    Row(w.parentid, w.predecessorid, w.sortindex, w.modified, w.payload, PayloadSize(w.payload))
  }

  /** Whether `update_object` writes `modified`: only when parentid or payload is present. */
  predicate TouchesModified(w: WBO) {
    w.parentid.Some? || w.payload.Some?
  }

  /** Whether `update_object` has any column to set. */
  predicate HasUpdateFields(w: WBO) {
    w.parentid.Some? || w.predecessorid.Some? || w.sortindex.Some? || w.payload.Some?
  }

  /**
   * The row after `update_object` applies `w` to it: each present field is
   * overwritten, each absent one is kept, `payload_size` follows the payload
   * and `modified` is written only when parentid or payload is present.
   */
  function Merge(row: Row, w: WBO): Row
  {
    Row(
      if w.parentid.Some? then w.parentid else row.parentid,
      if w.predecessorid.Some? then w.predecessorid else row.predecessorid,
      if w.sortindex.Some? then w.sortindex else row.sortindex,
      if TouchesModified(w) then w.modified else row.modified,
      if w.payload.Some? then w.payload else row.payload,
      if w.payload.Some? then PayloadSize(w.payload) else row.payloadSize)
  }

  /**
   * The record `update_object` writes: one that sets `modified` but has no
   * timestamp is given the current time.
   */
  function WithTimestamp(w: WBO, now: int): (r: WBO)
    ensures TouchesModified(w) ==> r.modified.Some?
    ensures r.(modified := w.modified) == w
    ensures w.modified.Some? || !TouchesModified(w) ==> r == w
  {
    if TouchesModified(w) && w.modified.None? then w.(modified := Some(now)) else w
  }

  /** An update carrying payload or parentid always leaves the row with a timestamp. */
  lemma ContentUpdateTimestamps(row: Row, w: WBO, now: int)
    requires TouchesModified(w)
    ensures Merge(row, WithTimestamp(w, now)).modified.Some?
    ensures w.modified.Some? ==> Merge(row, WithTimestamp(w, now)).modified == w.modified
  {
  }

  /** Update overwrites exactly the fields present on the record and keeps every other one. */
  lemma MergeFields(row: Row, w: WBO)
    ensures w.parentid.Some? ==> Merge(row, w).parentid == w.parentid
    ensures w.parentid.None? ==> Merge(row, w).parentid == row.parentid
    ensures w.predecessorid.Some? ==> Merge(row, w).predecessorid == w.predecessorid
    ensures w.predecessorid.None? ==> Merge(row, w).predecessorid == row.predecessorid
    ensures w.sortindex.Some? ==> Merge(row, w).sortindex == w.sortindex
    ensures w.sortindex.None? ==> Merge(row, w).sortindex == row.sortindex
    ensures w.payload.Some? ==>
      Merge(row, w).payload == w.payload && Merge(row, w).payloadSize == Some(|w.payload.value|)
    ensures w.payload.None? ==>
      Merge(row, w).payload == row.payload && Merge(row, w).payloadSize == row.payloadSize
  {
  }

  /** A weight-only change (only sortindex present) never moves `modified`. */
  lemma WeightOnlyKeepsModified(row: Row, w: WBO)
    requires w.parentid.None? && w.predecessorid.None? && w.payload.None?
    ensures Merge(row, w).modified == row.modified
    ensures Merge(row, w) == row.(sortindex := if w.sortindex.Some? then w.sortindex else row.sortindex)
  {
  }

  /** An update carrying payload or parentid writes the record's timestamp. */
  lemma ContentUpdateSetsModified(row: Row, w: WBO)
    requires TouchesModified(w)
    ensures Merge(row, w).modified == w.modified
  {
  }

  /** Merging a record that carries every field is the wholesale replacement `store_object` does. */
  lemma MergeFullIsStore(row: Row, w: WBO)
    requires w.parentid.Some? && w.predecessorid.Some? && w.sortindex.Some? && w.payload.Some?
    ensures Merge(row, w) == RowOf(w)
  {
  }
}
