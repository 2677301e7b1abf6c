/** The in-memory stand-in for one integer-keyed database table: rows are kept in a
    map from id to row, and ids are handed out by a counter. */
module Store {
  import opened Common

  /** The ids in use are exactly 1 .. nextId - 1. No row is ever removed, so this is
      the rowid rule of the backing store: a new row gets the largest id plus one. */
  ghost predicate Contiguous<R>(rows: map<int, R>, nextId: int)
  {
    && 1 <= nextId
    && (forall k :: k in rows ==> 1 <= k < nextId)
    && (forall k :: 1 <= k < nextId ==> k in rows)
  }

  /** Every row is stored under its own id, read by idOf. */
  ghost predicate IdsMatch<R>(rows: map<int, R>, idOf: R -> int)
  {
    forall k :: k in rows ==> idOf(rows[k]) == k
  }

  /** The id of the first row, in increasing id order between lo and hi - 1, that
      satisfies pred: the query `filter(pred).first()` over a table scan. */
  function FirstMatch<R>(rows: map<int, R>, lo: int, hi: int, pred: R -> bool): (r: Option<int>)
    decreases hi - lo
    ensures r.Some? ==> lo <= r.value < hi && r.value in rows && pred(rows[r.value])
    ensures r.Some? ==> forall k :: lo <= k < r.value && k in rows ==> !pred(rows[k])
    ensures r.None? ==> forall k :: lo <= k < hi && k in rows ==> !pred(rows[k])
  {
    if hi <= lo then None
    else if lo in rows && pred(rows[lo]) then Some(lo)
    else FirstMatch(rows, lo + 1, hi, pred)
  }

  /** On a contiguous table, the first match over the whole id range finds a row
      exactly when some row satisfies pred. */
  lemma {:induction false} FirstMatchFinds<R>(rows: map<int, R>, nextId: int, pred: R -> bool)
    requires Contiguous(rows, nextId)
    ensures FirstMatch(rows, 1, nextId, pred).Some? <==> exists k :: k in rows && pred(rows[k])
  {
    var r := FirstMatch(rows, 1, nextId, pred);
    if r.None? {
      forall k | k in rows ensures !pred(rows[k]) {
        assert 1 <= k < nextId;
      }
    }
  }
}
