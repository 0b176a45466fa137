/** The layout of the shared key space: shard id, table id, then the key columns; the scan ranges
    that pick out one table; and secondary index entries. */
module TableKeys {
  import opened Bytes
  import opened KeyEncoding
  import opened RowKeys

  /** EncodeTableKeyPrefix. */
  function TablePrefix(table: U64, shard: U64): (p: Bytes)
    ensures |p| == 16
  {
    BigEndian(shard, 8) + BigEndian(table, 8)
  }

  /** The half-open range a scan visits. */
  predicate InRange(k: Bytes, start: Bytes, end: Bytes) {
    Compare(k, start) != Less && Compare(k, end) == Less
  }

  predicate AllOnes(p: Bytes) {
    forall i :: 0 <= i < |p| ==> p[i] == 255
  }

  /** The next byte string of the same length, carrying from the right. */
  function Increment(p: Bytes): (q: Bytes)
    requires p == [] || !AllOnes(p)
    ensures |q| == |p|
  {
    if p == [] then []
    else
      var n := |p| - 1;
      if p[n] < 255 then p[..n] + [p[n] + 1] else
        assert n == 0 ==> AllOnes(p);
        Increment(p[..n]) + [0]
  }

  /** IncrementBytesBigEndian: the backward loop over a copy; None stands for its panic. */
  method IncrementBytesBigEndian(bytes: Bytes) returns (r: Option<Bytes>)
    ensures r.None? <==> bytes != [] && AllOnes(bytes)
    ensures r.Some? ==> r.value == Increment(bytes)
  {
    var n := |bytes|;
    var inced := new Byte[n](i requires 0 <= i < n => bytes[i]);
    var i := n - 1;
    while i >= 0
      invariant -1 <= i < n
      invariant i == -1 ==> n == 0
      invariant forall j :: 0 <= j <= i ==> inced[j] == bytes[j]
      invariant forall j :: i < j < n ==> bytes[j] == 255 && inced[j] == 0
    {
      var b := bytes[i];
      if b < 255 {
        inced[i] := b + 1;
        IncrementShape(bytes, i);
        assert inced[..] == bytes[..i] + [b + 1] + seq(n - 1 - i, _ => 0);
        return Some(inced[..]);
      }
      if i == 0 {
        return None;
      }
      inced[i] := 0;
      i := i - 1;
    }
    return Some(inced[..]);
  }

  lemma {:induction false} IncrementShape(p: Bytes, i: nat)
    requires i < |p| && p[i] < 255 && forall j :: i < j < |p| ==> p[j] == 255
    ensures !AllOnes(p)
    ensures Increment(p) == p[..i] + [p[i] + 1] + seq(|p| - 1 - i, _ => 0)
  {
    var n := |p| - 1;
    if i < n {
      IncrementShape(p[..n], i);
      assert p[..n][..i] == p[..i];
    }
  }

  lemma {:induction false} IncrementIsSuccessor(p: Bytes)
    requires p != [] && !AllOnes(p)
    ensures FromBigEndian(Increment(p)) == FromBigEndian(p) + 1
  {
    var n := |p| - 1;
    var q := Increment(p);
    if p[n] < 255 {
      assert q[..n] == p[..n];
    } else {
      IncrementIsSuccessor(p[..n]);
      assert q[..n] == Increment(p[..n]);
    }
  }

  /** Against a string no longer than the key, only the key's leading bytes count, and they compare
      as numbers. */
  lemma HeadDecides(k: Bytes, p: Bytes)
    requires |p| <= |k|
    ensures Compare(k, p) == Less <==> FromBigEndian(k[..|p|]) < FromBigEndian(p)
  {
    hide BigEndian, FromBigEndian, CommonPrefix;
    var h := k[..|p|];
    var n := |p|;
    FromBigEndianRoundTrip(h);
    FromBigEndianRoundTrip(p);
    var u, v := FromBigEndian(h), FromBigEndian(p);
    if u < v {
      BigEndianSplits(u, v, n);
      SplitsAt(k, p, CommonPrefix(h, p));
    } else if v < u {
      BigEndianSplits(v, u, n);
      SplitsAt(p, k, CommonPrefix(p, h));
      SplitsDecides(p, k);
    } else {
      assert h == p;
      assert forall i :: 0 <= i < n ==> k[i] == h[i];
      assert CommonPrefix(k, p) == n;
    }
  }

  /** The range from a prefix to its increment is exactly the keys that start with the prefix, among
      keys at least as long as it. */
  lemma PrefixRange(p: Bytes, k: Bytes)
    requires p != [] && !AllOnes(p) && |p| <= |k|
    ensures InRange(k, p, Increment(p)) <==> p <= k
  {
    HeadDecides(k, p);
    HeadDecides(k, Increment(p));
    IncrementIsSuccessor(p);
    var h := k[..|p|];
    FromBigEndianRoundTrip(h);
    FromBigEndianRoundTrip(p);
    assert p <= k <==> h == p;
  }

  /** The leading bytes of the increment are those of the string, or their increment if a carry reaches them. */
  lemma {:induction false} IncrementHead(p: Bytes, n: nat)
    requires p != [] && !AllOnes(p) && n < |p|
    ensures Increment(p)[..n] == p[..n]
            || (n > 0 && !AllOnes(p[..n]) && Increment(p)[..n] == Increment(p[..n]))
  {
    var last := |p| - 1;
    if p[last] < 255 {
      assert Increment(p)[..n] == p[..n];
    } else {
      assert Increment(p)[..last] == Increment(p[..last]);
      if n < last {
        IncrementHead(p[..last], n);
        assert p[..last][..n] == p[..n] && Increment(p[..last])[..n] == Increment(p)[..n];
      }
    }
  }

  /** Shorter and longer strings are never equal, so one comparison decides the other. */
  lemma ShorterFlips(k: Bytes, p: Bytes)
    requires |k| < |p|
    ensures Compare(k, p) == Less <==> Compare(p, k) != Less
  {
    CompareEqual(k, p);
    CompareFlips(k, p);
  }

  /** Of the keys shorter than the prefix, the range holds exactly those that the increment starts with and the
      prefix does not. */
  lemma ShortKeyRange(p: Bytes, k: Bytes)
    requires p != [] && !AllOnes(p) && |k| < |p|
    ensures InRange(k, p, Increment(p)) <==> k <= Increment(p) && !(k <= p)
  {
    hide Compare, FromBigEndian;
    var (q, n) := (Increment(p), |k|);
    ShorterFlips(k, p);
    ShorterFlips(k, q);
    HeadDecides(p, k);
    HeadDecides(q, k);
    IncrementHead(p, n);
    if q[..n] != p[..n] {
      IncrementIsSuccessor(p[..n]);
    }
    SameNumber(k, p[..n]);
    SameNumber(k, q[..n]);
    assert k <= p <==> k == p[..n];
    assert k <= q <==> k == q[..n];
  }

  lemma SameNumber(a: Bytes, b: Bytes)
    requires |a| == |b|
    ensures a == b <==> FromBigEndian(a) == FromBigEndian(b)
  {
    FromBigEndianRoundTrip(a);
    FromBigEndianRoundTrip(b);
  }

  lemma NextTablePrefix(table: U64, shard: U64)
    requires table + 1 < TWO_64
    ensures !AllOnes(TablePrefix(table, shard))
    ensures Increment(TablePrefix(table, shard)) == TablePrefix(table + 1, shard)
  {
    PowWidths();
    var t, s := BigEndian(table, 8), BigEndian(shard, 8);
    assert !AllOnes(t) by {
      if AllOnes(t) {
        OnesAreLargest(table, 8);
      }
    }
    var i := LastBelow(t);
    IncrementShape(t, i);
    IncrementIsSuccessor(t);
    BigEndianRoundTrip(table, 8);
    FromBigEndianRoundTrip(Increment(t));
    assert Increment(t) == BigEndian(table + 1, 8);
    var p := s + t;
    assert forall j :: 8 <= j < 16 ==> p[j] == t[j - 8];
    IncrementShape(p, 8 + i);
    assert p[..8 + i] == s + t[..i];
  }

  lemma {:induction false} OnesAreLargest(v: nat, n: nat)
    requires v < Pow256(n) && AllOnes(BigEndian(v, n))
    ensures v == Pow256(n) - 1
  {
    if n > 0 {
      var b := BigEndian(v, n);
      assert b[..n - 1] == BigEndian(v / 256, n - 1) && b[n - 1] == v % 256;
      OnesAreLargest(v / 256, n - 1);
    }
  }

  /** Position of the last byte below 255. */
  lemma {:induction false} LastBelow(p: Bytes) returns (i: nat)
    requires !AllOnes(p)
    ensures i < |p| && p[i] < 255 && forall j :: i < j < |p| ==> p[j] == 255
  {
    var n := |p| - 1;
    if p[n] < 255 {
      i := n;
    } else {
      i := LastBelow(p[..n]);
    }
  }

  /** The scan from a table's prefix to the next table id's prefix holds exactly that table's keys in
      that shard, for every stored key that carries a full prefix. */
  lemma TableScan(table: U64, shard: U64, k: Bytes)
    requires table + 1 < TWO_64 && |k| >= 16
    ensures InRange(k, TablePrefix(table, shard), TablePrefix(table + 1, shard)) <==> TablePrefix(table, shard) <= k
  {
    NextTablePrefix(table, shard);
    PrefixRange(TablePrefix(table, shard), k);
  }

  /** A key without a full prefix is in the scan exactly when the next table's prefix starts with it and the
      table's own prefix does not. */
  lemma ShortKeyInScan(table: U64, shard: U64, k: Bytes)
    requires table + 1 < TWO_64 && |k| < 16
    ensures InRange(k, TablePrefix(table, shard), TablePrefix(table + 1, shard))
            <==> k <= TablePrefix(table + 1, shard) && !(k <= TablePrefix(table, shard))
  {
    NextTablePrefix(table, shard);
    ShortKeyRange(TablePrefix(table, shard), k);
  }

  /** There are such keys. */
  lemma ForeignShortKey()
    ensures InRange(Zeros15(), TablePrefix(255, 0), TablePrefix(256, 0))
  {
    hide TablePrefix, InRange;
    var (k, p, q) := (Zeros15(), TablePrefix(255, 0), TablePrefix(256, 0));
    SmallPrefix(255);
    SmallPrefix(256);
    assert k == q[..15] && k[14] != p[14];
    ShortKeyInScan(255, 0, k);
  }

  /** Fourteen zero bytes and a one. */
  function Zeros15(): (k: Bytes)
    ensures |k| == 15
  {
    seq(15, i => if i == 14 then 1 else 0)
  }

  lemma SmallPrefix(table: U64)
    requires table < 0x1_0000
    ensures forall i :: 0 <= i < 16 ==>
      TablePrefix(table, 0)[i] == if i == 15 then table % 256 else if i == 14 then table / 256 else 0
  {
    ZeroLayout(8);
    ZeroLayout(6);
    assert BigEndian(table, 8) == BigEndian(table / 256 / 256, 6) + [table / 256 % 256] + [table % 256];
  }

  lemma {:induction false} ZeroLayout(n: nat)
    ensures BigEndian(0, n) == seq(n, _ => 0)
  {
    if n > 0 {
      ZeroLayout(n - 1);
    }
  }

  // ---- Rows and index entries --------------------------------------------------------------------

  datatype TableInfo = TableInfo(id: U64, keyCols: seq<nat>, types: seq<ColumnType>)

  predicate Storable(info: TableInfo, row: Row) {
    Comparable(row, info.keyCols, info.types) && Present(row, info.keyCols)
  }

  predicate Indexable(info: TableInfo, indexCols: seq<nat>, row: Row) {
    Storable(info, row) && Comparable(row, indexCols, info.types)
  }

  function PrimaryKey(info: TableInfo, row: Row): Bytes
    requires Storable(info, row)
  {
    RowEmbeds(false, row, row, info.keyCols, info.types, |info.keyCols|);
    EncodeKey(false, row, info.keyCols, info.types).value
  }

  /** encodeKeyFromRow. */
  function TableKey(info: TableInfo, shard: U64, row: Row): Bytes
    requires Storable(info, row)
  {
    TablePrefix(info.id, shard) + PrimaryKey(info, row)
  }

  /** EncodeIndexKeyValue: the index columns and the primary key in the key, the primary key again as
      the value. */
  function IndexEntry(info: TableInfo, indexId: U64, indexCols: seq<nat>, shard: U64, row: Row): (Bytes, Bytes)
    requires Indexable(info, indexCols, row)
  {
    RowEmbeds(true, row, row, indexCols, info.types, |indexCols|);
    var keyBuff := TablePrefix(indexId, shard) + EncodeKey(true, row, indexCols, info.types).value;
    var pkStart := |keyBuff|;
    var keyBuff' := keyBuff + PrimaryKey(info, row);
    (keyBuff', keyBuff'[pkStart..])
  }

  /** The value of an index entry behind the table's prefix is the table key of the indexed row. */
  lemma IndexValueFindsRow(info: TableInfo, indexId: U64, indexCols: seq<nat>, shard: U64, row: Row)
    requires Indexable(info, indexCols, row)
    ensures TablePrefix(info.id, shard) + IndexEntry(info, indexId, indexCols, shard, row).1
      == TableKey(info, shard, row)
  {
  }

  /** Index entries sort by the index columns, nulls first, and then by the primary key; two rows
      share an entry only when they agree on both. */
  lemma IndexOrder(info: TableInfo, indexId: U64, indexCols: seq<nat>, shard: U64, a: Row, b: Row)
    requires Indexable(info, indexCols, a) && Indexable(info, indexCols, b)
    ensures var ka, kb := IndexEntry(info, indexId, indexCols, shard, a).0,
      IndexEntry(info, indexId, indexCols, shard, b).0;
            var byIndex := CompareRows(a, b, indexCols, info.types, |indexCols|);
            var byKey := CompareRows(a, b, info.keyCols, info.types, |info.keyCols|);
            && Compare(ka, kb) == (if byIndex != Equal then byIndex else byKey)
            && (ka == kb <==> byIndex == Equal && byKey == Equal)
            && (ka == kb ==> PrimaryKey(info, a) == PrimaryKey(info, b))
  {
    hide EncodeCells, CompareRows, TablePrefix;
    RowEmbeds(true, a, b, indexCols, info.types, |indexCols|);
    RowEmbeds(false, a, b, info.keyCols, info.types, |info.keyCols|);
    TwoPartOrder(TablePrefix(indexId, shard),
                 CompareRows(a, b, indexCols, info.types, |indexCols|),
                 EncodeKey(true, a, indexCols, info.types).value, EncodeKey(true, b, indexCols, info.types).value,
                 CompareRows(a, b, info.keyCols, info.types, |info.keyCols|), PrimaryKey(info, a), PrimaryKey(info, b));
  }

  lemma TwoPartOrder(p: Bytes, o: Ordering, a: Bytes, b: Bytes, o': Ordering, a': Bytes, b': Bytes)
    requires Embeds(o, a, b) && Embeds(o', a', b')
    ensures Compare(p + a + a', p + b + b') == if o != Equal then o else o'
    ensures p + a + a' == p + b + b' <==> o == Equal && o' == Equal
  {
    hide SplitsBelow;
    EmbedsConcat(o, a, b, o', a', b');
    EmbedsDecides(if o != Equal then o else o', a + a', b + b', p, [], []);
    assert p + (a + a') == p + a + a' && p + (b + b') == p + b + b';
    CompareEqual(p + a + a', p + b + b');
  }

  /** Rows of one table with the same table key have the same primary key columns. */
  lemma TableKeyUnique(info: TableInfo, shard: U64, a: Row, b: Row)
    requires Storable(info, a) && Storable(info, b)
    requires TableKey(info, shard, a) == TableKey(info, shard, b)
    ensures CanonicalCells(a, info.keyCols, |info.keyCols|) == CanonicalCells(b, info.keyCols, |info.keyCols|)
  {
    var p := TablePrefix(info.id, shard);
    KeyRoundTrip(false, a, info.keyCols, info.types, p, []);
    KeyRoundTrip(false, b, info.keyCols, info.types, p, []);
    assert PrimaryKey(info, a) == TableKey(info, shard, a)[16..] == PrimaryKey(info, b);
  }
}
