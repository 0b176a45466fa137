/** Storage keys of system tables that are keyed by a name, and batches of writes to the store. */
module NamedKeys {
  import opened Bytes
  import StringKeys
  import opened TableKeys

  type Store = map<Bytes, Bytes>

  const LAST_LOG_INDEX_TABLE: U64 := 4

  function NameKey(table: U64, shard: U64, name: Bytes): Bytes {
    TablePrefix(table, shard) + StringKeys.EncodeString(name)
  }

  /** Reading the name back from a key gives the name and consumes the whole key. */
  lemma NameKeyDecodes(table: U64, shard: U64, name: Bytes)
    ensures StringKeys.DecodeString(NameKey(table, shard, name), 16) == Ok((name, |NameKey(table, shard, name)|))
  {
    var p := TablePrefix(table, shard);
    StringKeys.DecodeEncode(p, name, []);
    assert p + StringKeys.EncodeString(name) + [] == NameKey(table, shard, name);
  }

  lemma NameKeyInjective(table: U64, shard: U64, a: Bytes, b: Bytes)
    requires NameKey(table, shard, a) == NameKey(table, shard, b)
    ensures a == b
  {
    NameKeyDecodes(table, shard, a);
    NameKeyDecodes(table, shard, b);
  }

  /** The scan range of a table. */
  predicate InTable(table: U64, shard: U64, k: Bytes)
    requires table + 1 < TWO_64
  {
    InRange(k, TablePrefix(table, shard), TablePrefix(table + 1, shard))
  }

  lemma NameKeyInTable(table: U64, shard: U64, name: Bytes)
    requires table + 1 < TWO_64
    ensures InTable(table, shard, NameKey(table, shard, name))
  {
    TableScan(table, shard, NameKey(table, shard, name));
  }

  lemma PrefixNotInTable(table: U64, other: U64, shard: U64)
    requires table + 1 < TWO_64 && table != other
    ensures !InTable(table, shard, TablePrefix(other, shard))
  {
    hide BigEndian;
    var k := TablePrefix(other, shard);
    TableScan(table, shard, k);
    PowWidths();
    BigEndianRoundTrip(table, 8);
    BigEndianRoundTrip(other, 8);
    var p := TablePrefix(table, shard);
    assert p[8..] == BigEndian(table, 8) && k[8..] == BigEndian(other, 8);
    assert p <= k ==> p == k;
  }

  // ---- Batches ------------------------------------------------------------------------------------

  /** The last write to each key; None deletes. */
  type StoreBatch = map<Bytes, Option<Bytes>>

  function Commit(store: Store, batch: StoreBatch): Store {
    map k | k in store.Keys + batch.Keys && (k in batch ==> batch[k].Some?) ::
      if k in batch then batch[k].value else store[k]
  }

  lemma CommitSet(store: Store, batch: StoreBatch, k: Bytes, v: Bytes)
    ensures Commit(store, batch[k := Some(v)]) == Commit(store, batch)[k := v]
  {
  }

  lemma CommitDelete(store: Store, batch: StoreBatch, k: Bytes)
    ensures Commit(store, batch[k := None]) == Commit(store, batch) - {k}
  {
  }

  lemma CommitNothing(store: Store)
    ensures Commit(store, map[]) == store
  {
  }
}
