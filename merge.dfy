/**
 * `INSERT ... SELECT ... ON CONFLICT (key) DO UPDATE/NOTHING` as one statement over a table
 * keyed by its natural key: each proposed row is merged with the row already stored under
 * its key, if any, and every other row is left alone.
 */
module Merge {
  import opened Wrappers

  function Lookup<K, V>(table: map<K, V>, k: K): Option<V> {
    if k in table then Some(table[k]) else None
  }

  /** The keys a batch proposes. */
  function BatchKeys<K, V>(rows: seq<(K, V)>): set<K> {
    set i | 0 <= i < |rows| :: rows[i].0
  }

  /** No key is proposed twice, which `ON CONFLICT DO UPDATE` requires of one statement. */
  predicate DistinctKeys<K(==), V>(rows: seq<(K, V)>) {
    forall i, j :: 0 <= i < j < |rows| ==> rows[i].0 != rows[j].0
  }

  /** The value a batch proposes for key `k`. */
  function Proposed<K(==), V>(rows: seq<(K, V)>, k: K): (v: V)
    requires k in BatchKeys(rows)
    ensures exists i :: 0 <= i < |rows| && rows[i] == (k, v)
  {
    if rows[0].0 == k then rows[0].1
    else
      assert k in BatchKeys(rows[1..]) by {
        var i :| 0 <= i < |rows| && rows[i].0 == k;
        assert rows[1..][i - 1] == rows[i];
      }
      var v := Proposed(rows[1..], k);
      ghost var i :| 0 <= i < |rows[1..]| && rows[1..][i] == (k, v);
      assert rows[i + 1] == (k, v);
      v
  }

  /** With distinct keys, the proposed value of a row's key is that row's value. */
  lemma ProposedOfRow<K, V>(rows: seq<(K, V)>, i: nat)
    requires DistinctKeys(rows) && i < |rows|
    ensures rows[i].0 in BatchKeys(rows) && Proposed(rows, rows[i].0) == rows[i].1
  {
    var k := rows[i].0;
    var v := Proposed(rows, k);
    var j :| 0 <= j < |rows| && rows[j] == (k, v);
    assert i == j;
  }

  /** The batch as a map from key to proposed row. */
  function BatchMap<K(==), V>(rows: seq<(K, V)>): (m: map<K, V>)
    ensures m.Keys == BatchKeys(rows)
  {
    map k | k in BatchKeys(rows) :: Proposed(rows, k)
  }

  /**
   * The table after the statement: a key the batch proposes holds `merge(stored row, proposed row)`,
   * any other key keeps its row.
   */
  function Upsert<K, V>(table: map<K, V>, batch: map<K, V>, merge: (Option<V>, V) -> V): (r: map<K, V>)
    ensures r.Keys == table.Keys + batch.Keys
  {
    map k | k in table.Keys + batch.Keys :: if k in batch then merge(Lookup(table, k), batch[k]) else table[k]
  }

  /** `DO UPDATE SET every column = EXCLUDED.column`. */
  function Overwrite<V>(stored: Option<V>, proposed: V): V { proposed }

  /** With distinct keys, each proposed row is merged with what was stored under its key. */
  lemma UpsertRow<K, V>(table: map<K, V>, rows: seq<(K, V)>, merge: (Option<V>, V) -> V, i: nat)
    requires DistinctKeys(rows) && i < |rows|
    ensures var r := Upsert(table, BatchMap(rows), merge);
      rows[i].0 in r && r[rows[i].0] == merge(Lookup(table, rows[i].0), rows[i].1)
  {
    ProposedOfRow(rows, i);
  }

  /** Keys outside the batch are untouched, and the table only grows. */
  lemma UpsertFrame<K, V>(table: map<K, V>, batch: map<K, V>, merge: (Option<V>, V) -> V, k: K)
    ensures k in table ==> k in Upsert(table, batch, merge)
    ensures k in table && k !in batch ==> Upsert(table, batch, merge)[k] == table[k]
    ensures k !in table && k !in batch ==> k !in Upsert(table, batch, merge)
  {
  }

  /** A merge that, applied again to its own result with the same row, changes nothing. */
  ghost predicate Settles<V(!new)>(merge: (Option<V>, V) -> V) {
    forall stored: Option<V>, proposed: V :: merge(Some(merge(stored, proposed)), proposed) == merge(stored, proposed)
  }

  lemma OverwriteSettles<V(!new)>()
    ensures Settles(Overwrite<V>)
  {
  }

  /** Applying the same batch twice gives the table applying it once gives. */
  lemma UpsertIdempotent<K, V(!new)>(table: map<K, V>, batch: map<K, V>, merge: (Option<V>, V) -> V)
    requires Settles(merge)
    ensures Upsert(Upsert(table, batch, merge), batch, merge) == Upsert(table, batch, merge)
  {
    var once := Upsert(table, batch, merge);
    var twice := Upsert(once, batch, merge);
    forall k | k in twice ensures twice[k] == once[k] {
      if k in batch {
        assert Lookup(once, k) == Some(merge(Lookup(table, k), batch[k]));
      }
    }
  }
}
