/** Keys made of several columns: the loops that encode the key columns of a row, the decoder, and
    the theorems that make byte order of keys the same thing as column order of rows. */
module RowKeys {
  import opened Bytes
  import opened KeyEncoding

  /** A row: a value or null per column. */
  type Row = seq<Option<Value>>

  predicate Fits(row: Row, cols: seq<nat>, types: seq<ColumnType>) {
    forall i :: 0 <= i < |cols| ==>
      cols[i] < |types| && cols[i] < |row| && (row[cols[i]].Some? ==> HasType(row[cols[i]].value, types[cols[i]]))
  }

  predicate Present(row: Row, cols: seq<nat>) {
    forall i :: 0 <= i < |cols| ==> cols[i] < |row| && row[cols[i]].Some?
  }

  /** One column of a key. Index keys put a tag byte in front: 0 for null, 1 for a value. */
  function EncodeCell(index: bool, cell: Option<Value>, t: ColumnType): Result<Bytes>
    requires cell.Some? ==> HasType(cell.value, t)
    requires cell.None? ==> index
  {
    if cell.None? then Ok([0])
    else
      var e :- EncodeColumn(cell.value, t);
      Ok(if index then [1] + e else e)
  }

  /** The first `n` key columns of a row. */
  function EncodeCells(index: bool, row: Row, cols: seq<nat>, types: seq<ColumnType>, n: nat): Result<Bytes>
    requires Fits(row, cols, types) && (index || Present(row, cols)) && n <= |cols|
  {
    if n == 0 then Ok([])
    else
      var front :- EncodeCells(index, row, cols, types, n - 1);
      var last :- EncodeCell(index, row[cols[n - 1]], types[cols[n - 1]]);
      Ok(front + last)
  }

  function EncodeKey(index: bool, row: Row, cols: seq<nat>, types: seq<ColumnType>): Result<Bytes>
    requires Fits(row, cols, types) && (index || Present(row, cols))
  {
    EncodeCells(index, row, cols, types, |cols|)
  }

  lemma {:induction false} EncodeErrorsPersist(index: bool, row: Row, cols: seq<nat>, types: seq<ColumnType>, m: nat,
                                               n: nat)
    requires Fits(row, cols, types) && (index || Present(row, cols)) && m <= n <= |cols|
    requires EncodeCells(index, row, cols, types, m).Err?
    ensures EncodeCells(index, row, cols, types, n).Err?
  {
    if m < n {
      EncodeErrorsPersist(index, row, cols, types, m, n - 1);
    }
  }

  /** EncodeKeyCols and EncodeIndexKeyCols: the loop over the key columns, appending to `buffer`. */
  method EncodeKeyCols(index: bool, row: Row, cols: seq<nat>, types: seq<ColumnType>, buffer: Bytes)
    returns (r: Result<Bytes>)
    requires Fits(row, cols, types) && (index || Present(row, cols))
    ensures var e := EncodeKey(index, row, cols, types);
            r == if e.Ok? then Ok(buffer + e.value) else Err
  {
    var out := buffer;
    for i := 0 to |cols|
      invariant EncodeCells(index, row, cols, types, i).Ok?
      invariant out == buffer + EncodeCells(index, row, cols, types, i).value
    {
      var cell, t := row[cols[i]], types[cols[i]];
      if index && cell.None? {
        out := out + [0];
      } else {
        if index {
          out := out + [1];
        }
        var e := EncodeColumn(cell.value, t);
        if e.Err? {
          EncodeErrorsPersist(index, row, cols, types, i + 1, |cols|);
          return Err;
        }
        out := out + e.value;
      }
    }
    return Ok(out);
  }

  // ---- Order -------------------------------------------------------------------------------------

  /** Columns with an order: known types and no NaN. */
  predicate Comparable(row: Row, cols: seq<nat>, types: seq<ColumnType>) {
    Fits(row, cols, types)
    && forall i :: 0 <= i < |cols| ==>
         types[cols[i]] != UnknownColumn && (row[cols[i]].Some? ==> Orderable(row[cols[i]].value))
  }

  /** Null sorts before every value. */
  function CompareCell(x: Option<Value>, y: Option<Value>, t: ColumnType): Ordering
    requires x.Some? ==> HasType(x.value, t)
    requires y.Some? ==> HasType(y.value, t)
    requires t != UnknownColumn
  {
    if x.Some? && y.Some? then CompareValue(x.value, y.value, t)
    else if x.None? && y.None? then Equal
    else if x.None? then Less else Greater
  }

  /** Column-wise comparison of the first `n` key columns: the first one that differs decides. */
  function CompareRows(a: Row, b: Row, cols: seq<nat>, types: seq<ColumnType>, n: nat): Ordering
    requires Comparable(a, cols, types) && Comparable(b, cols, types) && n <= |cols|
  {
    if n == 0 then Equal
    else
      var o := CompareRows(a, b, cols, types, n - 1);
      if o != Equal then o else CompareCell(a[cols[n - 1]], b[cols[n - 1]], types[cols[n - 1]])
  }

  lemma EmbedsConcat(o: Ordering, a: Bytes, b: Bytes, o': Ordering, a': Bytes, b': Bytes)
    requires Embeds(o, a, b) && Embeds(o', a', b')
    ensures Embeds(if o != Equal then o else o', a + a', b + b')
  {
    match o
    case Less => SplitsAt(a + a', b + b', CommonPrefix(a, b));
    case Greater => SplitsAt(b + b', a + a', CommonPrefix(b, a));
    case Equal =>
      match o'
      case Less => SplitsAt(a + a', b + b', |a| + CommonPrefix(a', b'));
      case Greater => SplitsAt(b + b', a + a', |a| + CommonPrefix(b', a'));
      case Equal =>
  }

  lemma CellEmbeds(index: bool, x: Option<Value>, y: Option<Value>, t: ColumnType)
    requires x.Some? ==> HasType(x.value, t) && Orderable(x.value)
    requires y.Some? ==> HasType(y.value, t) && Orderable(y.value)
    requires index || (x.Some? && y.Some?)
    requires t != UnknownColumn
    ensures Embeds(CompareCell(x, y, t), EncodeCell(index, x, t).value, EncodeCell(index, y, t).value)
  {
    var ex, ey := EncodeCell(index, x, t).value, EncodeCell(index, y, t).value;
    if x.Some? && y.Some? {
      ColumnEmbeds(x.value, y.value, t);
      if index {
        EmbedsConcat(Equal, [1], [1], CompareCell(x, y, t), EncodeColumn(x.value, t).value,
          EncodeColumn(y.value, t).value);
      }
    } else if x.None? && y.Some? {
      SplitsAt(ex, ey, 0);
    } else if x.Some? {
      SplitsAt(ey, ex, 0);
    }
  }

  lemma {:induction false} RowEmbeds(index: bool, a: Row, b: Row, cols: seq<nat>, types: seq<ColumnType>, n: nat)
    requires Comparable(a, cols, types) && Comparable(b, cols, types) && n <= |cols|
    requires index || (Present(a, cols) && Present(b, cols))
    ensures EncodeCells(index, a, cols, types, n).Ok? && EncodeCells(index, b, cols, types, n).Ok?
    ensures Embeds(CompareRows(a, b, cols, types, n),
                   EncodeCells(index, a, cols, types, n).value, EncodeCells(index, b, cols, types, n).value)
  {
    if n > 0 {
      var c := cols[n - 1];
      RowEmbeds(index, a, b, cols, types, n - 1);
      CellEmbeds(index, a[c], b[c], types[c]);
      EmbedsConcat(CompareRows(a, b, cols, types, n - 1),
                   EncodeCells(index, a, cols, types, n - 1).value, EncodeCells(index, b, cols, types, n - 1).value,
                   CompareCell(a[c], b[c], types[c]),
                   EncodeCell(index, a[c], types[c]).value, EncodeCell(index, b[c], types[c]).value);
    }
  }

  lemma EmbedsDecides(o: Ordering, a: Bytes, b: Bytes, p: Bytes, s: Bytes, t: Bytes)
    requires Embeds(o, a, b)
    ensures Compare(p + a, p + b) == o
    ensures o == Less ==> Compare(p + a + s, p + b + t) == Less
    ensures a <= b ==> o == Equal
  {
    EmbedsConcat(Equal, p, p, o, a, b);
    CompareEqual(p + a, p + b);
    match o
    case Less =>
      SplitsDecides(a, b);
      SplitsDecides(p + a, p + b);
      EmbedsConcat(Less, p + a, p + b, Equal, [], []);
      SplitsAt(p + a + s, p + b + t, CommonPrefix(p + a, p + b));
      SplitsDecides(p + a + s, p + b + t);
    case Equal =>
    case Greater =>
      SplitsDecides(b, a);
      SplitsDecides(p + b, p + a);
  }

  /** The order theorem: for any two rows, any key columns, any table prefix and anything appended,
      the store's byte order is the column order, and no key is a proper prefix of another. */
  lemma KeyOrder(index: bool, a: Row, b: Row, cols: seq<nat>, types: seq<ColumnType>, p: Bytes, s: Bytes, t: Bytes)
    requires Comparable(a, cols, types) && Comparable(b, cols, types)
    requires index || (Present(a, cols) && Present(b, cols))
    ensures var ka, kb := EncodeKey(index, a, cols, types), EncodeKey(index, b, cols, types);
            var o := CompareRows(a, b, cols, types, |cols|);
            && ka.Ok? && kb.Ok?
            && Compare(p + ka.value, p + kb.value) == o
            && (o == Less ==> Compare(p + ka.value + s, p + kb.value + t) == Less)
            && (ka.value <= kb.value ==> o == Equal)
            && (o == Equal ==> ka.value == kb.value)
  {
    RowEmbeds(index, a, b, cols, types, |cols|);
    EmbedsDecides(CompareRows(a, b, cols, types, |cols|),
                  EncodeKey(index, a, cols, types).value, EncodeKey(index, b, cols, types).value, p, s, t);
  }

  // ---- Decoding ----------------------------------------------------------------------------------

  /** DecodeIndexOrPKCol: index columns carry the null tag, primary key columns do not. */
  function DecodeCell(index: bool, buffer: Bytes, offset: nat, t: ColumnType): Result<(Option<Value>, nat)> {
    if !index then
      var (v, end) :- DecodeColumn(buffer, offset, t);
      Ok((Some(v), end))
    else if offset >= |buffer| then Err
    else if buffer[offset] == 0 then Ok((None, offset + 1))
    else
      var (v, end) :- DecodeColumn(buffer, offset + 1, t);
      Ok((Some(v), end))
  }

  /** The first `n` columns found at `offset` and the offset after them. */
  function DecodeCells(index: bool, buffer: Bytes, offset: nat, types: seq<ColumnType>, n: nat): (r: Result<(Row, nat)>)
    requires n <= |types|
    ensures r.Ok? ==> |r.value.0| == n
  {
    if n == 0 then Ok(([], offset))
    else
      var (cells, next) :- DecodeCells(index, buffer, offset, types, n - 1);
      var (cell, end) :- DecodeCell(index, buffer, next, types[n - 1]);
      Ok((cells + [cell], end))
  }

  /** The decoded cells dropped into the output columns; an output column of -1 discards. */
  function Deposit(columns: seq<Row>, outputs: seq<int>, cells: Row): (r: seq<Row>)
    requires |cells| <= |outputs|
    requires forall i :: 0 <= i < |outputs| ==> -1 <= outputs[i] < |columns|
    ensures |r| == |columns|
  {
    if cells == [] then columns
    else
      var n := |cells| - 1;
      var filled := Deposit(columns, outputs, cells[..n]);
      if outputs[n] == -1 then filled else filled[outputs[n] := filled[outputs[n]] + [cells[n]]]
  }

  lemma {:induction false} DecodeErrorsPersist(index: bool, buffer: Bytes, offset: nat, types: seq<ColumnType>, m: nat,
                                               n: nat)
    requires m <= n <= |types| && DecodeCells(index, buffer, offset, types, m).Err?
    ensures DecodeCells(index, buffer, offset, types, n).Err?
  {
    if m < n {
      DecodeErrorsPersist(index, buffer, offset, types, m, n - 1);
    }
  }

  /** DecodeIndexOrPKCols: the loop over the output columns, threading the offset and filling rows. */
  method DecodeIndexOrPKCols(buffer: Bytes, offset: nat, index: bool, types: seq<ColumnType>, outputs: seq<int>,
                             columns: seq<Row>) returns (r: Result<(seq<Row>, nat)>)
    requires |outputs| == |types|
    requires forall i :: 0 <= i < |outputs| ==> -1 <= outputs[i] < |columns|
    ensures match DecodeCells(index, buffer, offset, types, |types|)
            case Err => r == Err
            case Ok(p) => r == Ok((Deposit(columns, outputs, p.0), p.1))
  {
    var off, filled := offset, columns;
    for i := 0 to |outputs|
      invariant |filled| == |columns|
      invariant DecodeCells(index, buffer, offset, types, i).Ok?
      invariant off == DecodeCells(index, buffer, offset, types, i).value.1
      invariant filled == Deposit(columns, outputs, DecodeCells(index, buffer, offset, types, i).value.0)
    {
      var d := DecodeCell(index, buffer, off, types[i]);
      if d.Err? {
        DecodeErrorsPersist(index, buffer, offset, types, i + 1, |types|);
        return Err;
      }
      ghost var cells := DecodeCells(index, buffer, offset, types, i).value.0;
      assert (cells + [d.value.0])[..i] == cells;
      if outputs[i] != -1 {
        filled := filled[outputs[i] := filled[outputs[i]] + [d.value.0]];
      }
      off := d.value.1;
    }
    return Ok((filled, off));
  }

  function TypesOf(cols: seq<nat>, types: seq<ColumnType>): (ts: seq<ColumnType>)
    requires forall i :: 0 <= i < |cols| ==> cols[i] < |types|
    ensures |ts| == |cols| && forall i :: 0 <= i < |cols| ==> ts[i] == types[cols[i]]
  {
    seq(|cols|, i requires 0 <= i < |cols| => types[cols[i]])
  }

  function CanonicalCell(cell: Option<Value>): Option<Value> {
    if cell.Some? then Some(Canonical(cell.value)) else None
  }

  /** The first `n` key columns of a row as the decoder gives them back: negative zero has become zero. */
  function CanonicalCells(row: Row, cols: seq<nat>, n: nat): (r: Row)
    requires n <= |cols| && forall i :: 0 <= i < |cols| ==> cols[i] < |row|
    ensures |r| == n
  {
    if n == 0 then [] else CanonicalCells(row, cols, n - 1) + [CanonicalCell(row[cols[n - 1]])]
  }

  /** `e` sits in `buffer` at `offset`. */
  predicate SitsAt(buffer: Bytes, offset: nat, e: Bytes) {
    offset + |e| <= |buffer| && buffer[offset..offset + |e|] == e
  }

  lemma SitsAtParts(buffer: Bytes, offset: nat, front: Bytes, last: Bytes)
    requires SitsAt(buffer, offset, front + last)
    ensures SitsAt(buffer, offset, front) && SitsAt(buffer, offset + |front|, last)
  {
    var e := front + last;
    assert buffer[offset..offset + |front|] == e[..|front|] == front;
    assert buffer[offset + |front|..offset + |e|] == e[|front|..] == last;
  }

  lemma CellSitsAt(index: bool, cell: Option<Value>, t: ColumnType, buffer: Bytes, offset: nat)
    requires cell.Some? ==> HasType(cell.value, t) && Orderable(cell.value)
    requires cell.None? ==> index
    requires t != UnknownColumn
    requires SitsAt(buffer, offset, EncodeCell(index, cell, t).value)
    ensures DecodeCell(index, buffer, offset, t)
      == Ok((CanonicalCell(cell), offset + |EncodeCell(index, cell, t).value|))
  {
    var e := EncodeCell(index, cell, t).value;
    CellRoundTrip(index, cell, t, buffer[..offset], buffer[offset + |e|..]);
    assert buffer == buffer[..offset] + e + buffer[offset + |e|..];
  }

  lemma {:induction false} CellsRoundTrip(index: bool, row: Row, cols: seq<nat>, types: seq<ColumnType>, n: nat,
                                          buffer: Bytes, offset: nat, ts: seq<ColumnType>)
    requires Comparable(row, cols, types) && (index || Present(row, cols)) && n <= |cols|
    requires EncodeCells(index, row, cols, types, n).Ok?
    requires SitsAt(buffer, offset, EncodeCells(index, row, cols, types, n).value)
    requires |ts| == |cols| && forall i :: 0 <= i < |ts| ==> ts[i] == types[cols[i]]
    ensures DecodeCells(index, buffer, offset, ts, n)
            == Ok((CanonicalCells(row, cols, n), offset + |EncodeCells(index, row, cols, types, n).value|))
    decreases n
  {
    hide DecodeCell, EncodeColumn;
    if n > 0 {
      var c := cols[n - 1];
      var front, last := EncodeCells(index, row, cols, types, n - 1).value, EncodeCell(index, row[c], types[c]).value;
      SitsAtParts(buffer, offset, front, last);
      CellsRoundTrip(index, row, cols, types, n - 1, buffer, offset, ts);
      CellSitsAt(index, row[c], types[c], buffer, offset + |front|);
    }
  }

  lemma Reassociate(pre: Bytes, front: Bytes, last: Bytes, rest: Bytes)
    ensures pre + (front + last) + rest == (pre + front) + last + rest == pre + front + (last + rest)
  {
  }

  lemma CellRoundTrip(index: bool, cell: Option<Value>, t: ColumnType, pre: Bytes, rest: Bytes)
    requires cell.Some? ==> HasType(cell.value, t) && Orderable(cell.value)
    requires cell.None? ==> index
    requires t != UnknownColumn
    ensures var e := EncodeCell(index, cell, t).value;
            DecodeCell(index, pre + e + rest, |pre|, t) == Ok((CanonicalCell(cell), |pre| + |e|))
  {
    hide EncodeColumn, DecodeColumn;
    if cell.Some? {
      var body := EncodeColumn(cell.value, t).value;
      ColumnRoundTrip(if index then pre + [1] else pre, cell.value, t, rest);
      if index {
        Reassociate(pre, [1], body, rest);
        assert ((pre + [1]) + body + rest)[|pre|] == 1;
      }
    }
  }

  /** Decoding returns the row's key columns and the offset just after them, wherever the key starts
      and whatever follows it. */
  lemma KeyRoundTrip(index: bool, row: Row, cols: seq<nat>, types: seq<ColumnType>, pre: Bytes, rest: Bytes)
    requires Comparable(row, cols, types) && (index || Present(row, cols))
    ensures var e := EncodeKey(index, row, cols, types);
            && e.Ok?
            && DecodeCells(index, pre + e.value + rest, |pre|, TypesOf(cols, types), |cols|)
               == Ok((CanonicalCells(row, cols, |cols|), |pre| + |e.value|))
  {
    RowEmbeds(index, row, row, cols, types, |cols|);
    var e := EncodeKey(index, row, cols, types).value;
    assert (pre + e + rest)[|pre|..|pre| + |e|] == e;
    CellsRoundTrip(index, row, cols, types, |cols|, pre + e + rest, |pre|, TypesOf(cols, types));
  }
}
