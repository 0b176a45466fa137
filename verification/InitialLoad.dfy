/** Loading the initial state of a new table from another: each shard's rows are read page by page and
    written under the new table's prefix. */
module InitialLoad {
  import opened Bytes
  import opened TableKeys
  import opened NamedKeys
  import opened WriteBatches

  // ---- What the load should do --------------------------------------------------------------------

  predicate TableOf(k: Bytes, table: U64) { |k| >= 16 && k[8..16] == BigEndian(table, 8) }

  predicate RowOf(k: Bytes, table: U64, shard: U64) { |k| >= 16 && TablePrefix(table, shard) <= k }

  /** The key with its table id replaced. */
  function MoveTo(k: Bytes, table: U64): Bytes
    requires |k| >= 16
  {
    k[..8] + BigEndian(table, 8) + k[16..]
  }

  /** Keys have a shard and a table id, and fit a write batch. */
  predicate WellKeyed(store: Store) {
    forall k :: k in store ==> |k| >= 16 && Short((k, store[k]))
  }

  function Moved(rows: set<Bytes>, to: U64): set<Bytes>
    requires forall k :: k in rows ==> |k| >= 16
  {
    set k | k in rows :: MoveTo(k, to)
  }

  /** The store with the given rows of `from` copied to `to`: one row each, with the same value and the same
      key after the table id, and nothing else changed. */
  function Copied(store: Store, from: U64, to: U64, rows: set<Bytes>): Store
    requires WellKeyed(store) && rows <= store.Keys
  {
    map x | x in store.Keys + Moved(rows, to) ::
      if TableOf(x, to) && MoveTo(x, from) in rows then store[MoveTo(x, from)] else if x in store then store[x] else []
  }

  /** What copying means: each row is there again, with its value, under the key that differs from its own in the table
      id alone; every other key of the store is as it was; and there are no other keys. */
  lemma CopiedMeans(store: Store, from: U64, to: U64, rows: set<Bytes>, k: Bytes)
    requires WellKeyed(store) && rows <= store.Keys && from != to && forall r :: r in rows ==> TableOf(r, from)
    ensures var copied := Copied(store, from, to, rows);
            && (k in rows ==> var c := k[..8] + BigEndian(to, 8) + k[16..]; c in copied && copied[c] == store[k])
            && (k in store && !(exists r :: r in rows && k == r[..8] + BigEndian(to, 8) + r[16..]) ==>
                  k in copied && copied[k] == store[k])
            && (k in copied ==> k in store || exists r :: r in rows && k == r[..8] + BigEndian(to, 8) + r[16..])
  {
    hide BigEndian;
    var copied := Copied(store, from, to, rows);
    if k in rows {
      MoveBack(k, from, to);
      assert MoveTo(k, to) in Moved(rows, to);
    }
    if TableOf(k, to) && MoveTo(k, from) in rows {
      MoveBack(k, to, from);
      assert k == MoveTo(MoveTo(k, from), to);
    }
    if k in copied && k !in store {
      var r :| r in rows && k == MoveTo(r, to);
    }
  }

  lemma MoveBack(k: Bytes, from: U64, to: U64)
    requires TableOf(k, from)
    ensures TableOf(MoveTo(k, to), to) && MoveTo(MoveTo(k, to), from) == k
  {
    hide BigEndian;
    var m := MoveTo(k, to);
    assert m[8..16] == BigEndian(to, 8) && m[..8] == k[..8] && m[16..] == k[16..];
    assert k == k[..8] + k[8..16] + k[16..];
  }

  lemma RowTable(k: Bytes, table: U64, shard: U64)
    requires RowOf(k, table, shard)
    ensures TableOf(k, table)
    ensures forall to: U64 :: MoveTo(k, to) == TablePrefix(to, shard) + k[16..]
  {
    hide BigEndian;
    assert k[..16] == TablePrefix(table, shard);
    assert k[8..16] == k[..16][8..16] == BigEndian(table, 8);
    assert k[..8] == k[..16][..8] == BigEndian(shard, 8);
  }

  lemma TablesDiffer(k: Bytes, a: U64, b: U64)
    requires TableOf(k, a) && TableOf(k, b)
    ensures a == b
  {
    hide BigEndian;
    PowWidths();
    BigEndianRoundTrip(a, 8);
    BigEndianRoundTrip(b, 8);
  }

  /** The rows themselves are not touched by copying them elsewhere. */
  lemma CopyLeavesRows(store: Store, from: U64, to: U64, rows: set<Bytes>, k: Bytes)
    requires WellKeyed(store) && rows <= store.Keys && from != to && TableOf(k, from)
    requires forall r :: r in rows ==> TableOf(r, from)
    ensures k in Copied(store, from, to, rows) <==> k in store
    ensures k in store ==> Copied(store, from, to, rows)[k] == store[k]
  {
    if TableOf(k, to) {
      TablesDiffer(k, from, to);
    }
    forall r | r in rows ensures MoveTo(r, to) != k {
      MoveBack(r, from, to);
    }
  }

  lemma CopyOneMore(store: Store, from: U64, to: U64, rows: set<Bytes>, k: Bytes)
    requires WellKeyed(store) && rows <= store.Keys && k in store && TableOf(k, from)
    ensures Copied(store, from, to, rows)[MoveTo(k, to) := store[k]] == Copied(store, from, to, rows + {k})
  {
    hide MoveTo, Short;
    MoveBack(k, from, to);
    assert Moved(rows + {k}, to) == Moved(rows, to) + {MoveTo(k, to)};
    var a, b := Copied(store, from, to, rows)[MoveTo(k, to) := store[k]], Copied(store, from, to, rows + {k});
    assert a.Keys == b.Keys;
    forall x | x in b ensures a[x] == b[x] {
      if TableOf(x, to) && MoveTo(x, from) == k {
        MoveBack(x, to, from);
      }
    }
  }

  lemma CopiedWellKeyed(store: Store, from: U64, to: U64, rows: set<Bytes>)
    requires WellKeyed(store) && rows <= store.Keys
    ensures WellKeyed(Copied(store, from, to, rows))
  {
    forall k | k in rows ensures |MoveTo(k, to)| == |k| {
    }
  }

  // ---- Scanning -----------------------------------------------------------------------------------

  predicate KeysAscend(pairs: seq<Pair>) {
    forall i, j :: 0 <= i < j < |pairs| ==> Compare(pairs[i].0, pairs[j].0) == Less
  }

  function KeysOf(pairs: seq<Pair>): set<Bytes> {
    set i | 0 <= i < |pairs| :: pairs[i].0
  }

  /** A page of a scan: the first `limit` entries of the range in key order, or all of them. */
  ghost predicate IsPage(store: Store, start: Bytes, end: Bytes, limit: nat, pairs: seq<Pair>) {
    && |pairs| <= limit && KeysAscend(pairs)
    && (forall i :: 0 <= i < |pairs| ==>
      pairs[i].0 in store && store[pairs[i].0] == pairs[i].1 && InRange(pairs[i].0, start, end))
    && (forall k :: k in store && InRange(k, start, end) && k !in KeysOf(pairs) ==>
          |pairs| == limit && forall i :: 0 <= i < |pairs| ==> Compare(pairs[i].0, k) == Less)
  }

  lemma NotLessTransitive(a: Bytes, b: Bytes, c: Bytes)
    requires Compare(a, b) != Less && Compare(b, c) != Less
    ensures Compare(a, c) != Less
  {
    CompareFlips(c, b);
    CompareFlips(b, c);
    if Compare(a, c) == Less {
      LessTransitive(a, c, b);
    }
  }

  method SmallestKey(keys: set<Bytes>) returns (k: Bytes)
    requires keys != {}
    ensures k in keys && forall x :: x in keys && x != k ==> Compare(k, x) == Less
  {
    k :| k in keys;
    var todo := keys - {k};
    while todo != {}
      invariant todo < keys && k in keys - todo
      invariant forall x :: x in keys - todo && x != k ==> Compare(k, x) == Less
      decreases |todo|
    {
      var x :| x in todo;
      if Compare(x, k) == Less {
        forall y | y in keys - todo ensures Compare(x, y) == Less {
          if y != k {
            LessTransitive(x, k, y);
          }
        }
        k := x;
      } else {
        CompareEqual(x, k);
        CompareFlips(k, x);
      }
      todo := todo - {x};
    }
  }

  class LocalStore {
    var data: Store

    /** A limit of -1 stands for none. */
    method LocalScan(start: Bytes, end: Bytes, limit: int) returns (pairs: seq<Pair>)
      ensures limit >= 0 ==> IsPage(data, start, end, limit, pairs)
      ensures limit == -1 ==> IsPage(data, start, end, |pairs| + 1, pairs)
      ensures limit < -1 ==> pairs == []
    {
      hide Compare, KeysOf;
      var todo := set k | k in data && InRange(k, start, end);
      pairs := [];
      NoKeys();
      while (limit == -1 || |pairs| < limit) && todo != {}
        invariant (limit >= 0 ==> |pairs| <= limit) && (limit < -1 ==> pairs == []) && KeysAscend(pairs)
        invariant forall k :: k in todo ==> k in data && InRange(k, start, end) && k !in KeysOf(pairs)
        invariant forall k :: k in data && InRange(k, start, end) ==> k in todo || k in KeysOf(pairs)
        invariant forall i :: 0 <= i < |pairs| ==>
          pairs[i].0 in data && data[pairs[i].0] == pairs[i].1 && InRange(pairs[i].0, start, end)
        invariant forall i, k :: 0 <= i < |pairs| && k in todo ==> Compare(pairs[i].0, k) == Less
        decreases |todo|
      {
        var k := SmallestKey(todo);
        KeysSnoc(pairs, (k, data[k]));
        pairs := pairs + [(k, data[k])];
        todo := todo - {k};
      }
    }

    /** The receiver of ForEachPut sets each pair and that of ForEachDelete then deletes each key, in one batch
        of the store. */
    method WriteBatchLocally(wb: WriteBatch)
      requires wb.Valid()
      modifies this
      ensures data == PutAll(old(data), wb.added) - (set k | k in wb.removed)
    {
      var batch := data;
      var puts := wb.ForEachPut();
      for i := 0 to |puts|
        invariant batch == PutAll(data, puts[..i])
      {
        assert puts[..i + 1][..i] == puts[..i];
        batch := batch[puts[i].0 := puts[i].1];
      }
      assert puts[..|puts|] == puts;
      var deletes := wb.ForEachDelete();
      ghost var put := batch;
      for i := 0 to |deletes|
        invariant batch == put - (set k | k in deletes[..i])
      {
        assert deletes[..i + 1] == deletes[..i] + [deletes[i]];
        batch := batch - {deletes[i]};
      }
      assert deletes[..|deletes|] == deletes;
      data := batch;
    }

    /** One page: a put for every pair but a repeated first one. */
    method WritePage(pairs: seq<Pair>, skipFirst: bool, newPrefix: Bytes)
      requires forall i :: 0 <= i < |pairs| ==> |pairs[i].0| >= 16 && Short(pairs[i])
      requires |newPrefix| == 16
      modifies this
      ensures data == PutAll(old(data), Renamed(Kept(pairs, skipFirst), newPrefix))
    {
      hide PutAll, Renamed, Encode;
      var wb := new WriteBatch();
      ghost var kept := Kept(pairs, skipFirst);
      ghost var n := 0;
      for i := 0 to |pairs|
        invariant wb.Valid() && data == old(data) && fresh(wb) && wb.removed == []
        invariant n == (if skipFirst && i > 0 then i - 1 else i) && n <= |kept|
        invariant wb.added == Renamed(kept[..n], newPrefix)
      {
        if skipFirst && i == 0 {
          continue;
        }
        var key := newPrefix + pairs[i].0[16..];
        wb.AddPut(key, pairs[i].1);
        assert kept[n] == pairs[i];
        RenamedSnoc(kept, n, newPrefix);
        n := n + 1;
      }
      assert kept[..n] == kept;
      assert wb.removed == [] && (set k | k in wb.removed) == {};
      WriteBatchLocally(wb);
    }

    /** One pass of the loop over a shard: scan a page, write it, and see whether there is more. The last pair is
        looked up even in a page that has none. */
    method LoadPage(start: Bytes, end: Bytes, newPrefix: Bytes, skipFirst: bool, batchSize: int)
      returns (pass: Pass, ghost pairs: seq<Pair>)
      requires WellKeyed(data) && |newPrefix| == 16
      modifies this
      ensures batchSize >= 0 ==> IsPage(old(data), start, end, batchSize, pairs)
      ensures batchSize == -1 ==> IsPage(old(data), start, end, |pairs| + 1, pairs)
      ensures batchSize < -1 ==> pairs == []
      ensures forall i :: 0 <= i < |pairs| ==> |pairs[i].0| >= 16
      ensures data == PutAll(old(data), Renamed(Kept(pairs, skipFirst), newPrefix))
      ensures pass
           == if |pairs| < batchSize then Last else if pairs == [] then OutOfRange else More(pairs[|pairs| - 1].0)
    {
      var page := LocalScan(start, end, batchSize);
      pairs := page;
      WritePage(page, skipFirst, newPrefix);
      if |page| < batchSize {
        pass := Last;
      } else if page == [] {
        pass := OutOfRange;
      } else {
        pass := More(page[|page| - 1].0);
      }
    }

    /** One shard: ends having copied every row, unless it is interrupted or, with no positive page size, the page
        it has read is empty. With pages of one row or of all rows it does not end over a shard with
        rows (`LoadPasses`). */
    method LoadShard(from: U64, to: U64, shard: U64, batchSize: int, ghost store: Store, ghost before: set<Bytes>)
      returns (outcome: Outcome)
      requires batchSize == 1 || batchSize == -1 ==> RowsOf(store, from, shard) == {}
      requires from != to && from + 1 < TWO_64
      requires WellKeyed(store) && before <= store.Keys && (forall r :: r in before ==> TableOf(r, from))
      requires data == Copied(store, from, to, before)
      modifies this
      ensures outcome.Loaded? ==> batchSize > 0 && data == Copied(store, from, to, before + RowsOf(store, from, shard))
      ensures outcome.Panicked? ==> batchSize <= 0 && data == Copied(store, from, to, before)
      ensures exists part :: part <= RowsOf(store, from, shard) && data == Copied(store, from, to, before + part)
    {
      hide Copied, WellKeyed, IsPage, NextPage, CopiedUpTo, TablePrefix, Compare, PutAll;
      ghost var rows, done := RowsOf(store, from, shard), {};
      var scanStart := TablePrefix(from, shard);
      var scanEnd := TablePrefix(from + 1, shard);
      var newPrefix := TablePrefix(to, shard);
      var skipFirst := false;
      CompareEqual(scanStart, scanStart);
      NothingCopied(store, from, shard);
      assert before + done == before;
      while true
        invariant done <= rows && (skipFirst ==> batchSize >= 2) && (!skipFirst ==> done == {})
        invariant data == Copied(store, from, to, before + done)
        invariant Compare(scanStart, TablePrefix(from, shard)) != Less
        invariant CopiedUpTo(rows, done, scanStart, skipFirst)
        decreases |rows - done|
      {
        var interrupted: bool := *;
        if interrupted {
          return Interrupted;
        }
        RowsAreOfTable(store, from, shard);
        CopiedWellKeyed(store, from, to, before + done);
        var pass, pairs := LoadPage(scanStart, scanEnd, newPrefix, skipFirst, batchSize);
        if pass.OutOfRange? {
          NoPuts(Copied(store, from, to, before + done), newPrefix);
          return Panicked;
        }
        ghost var more := done + KeysOf(pairs);
        PassCopies(store, from, to, shard, before, done, scanStart, skipFirst,
                   if batchSize >= 0 then batchSize else |pairs| + 1, pairs);
        PassMoves(rows, done, scanStart, skipFirst, batchSize, pairs, TablePrefix(from, shard));
        if pass.Last? {
          return Loaded;
        }
        scanStart := pass.start;
        skipFirst := true;
        done := more;
      }
    }

    /** With pages of one row or of all rows, no number of passes over a shard with rows brings the loop to its
        end: every pass after the first finds the row it starts from, writes nothing and starts
        from that row again. */
    method LoadPasses(from: U64, to: U64, shard: U64, batchSize: int, passes: nat, ghost store: Store,
                      ghost before: set<Bytes>) returns (pass: Pass)
      requires (batchSize == 1 || batchSize == -1) && RowsOf(store, from, shard) != {}
      requires from != to && from + 1 < TWO_64
      requires WellKeyed(store) && before <= store.Keys && (forall r :: r in before ==> TableOf(r, from))
      requires data == Copied(store, from, to, before)
      modifies this
      ensures pass.More?
      ensures passes > 0 ==> exists part :: IsStuck(RowsOf(store, from, shard), part, pass.start, batchSize)
                                            && data == Copied(store, from, to, before + part)
    {
      hide Copied, WellKeyed, IsPage, NextPage, CopiedUpTo, TablePrefix, Compare, PutAll, IsStuck;
      ghost var rows, done := RowsOf(store, from, shard), {};
      var scanStart := TablePrefix(from, shard);
      var scanEnd := TablePrefix(from + 1, shard);
      var newPrefix := TablePrefix(to, shard);
      pass := More(scanStart);
      CompareEqual(scanStart, scanStart);
      NothingCopied(store, from, shard);
      RowsAreOfTable(store, from, shard);
      assert before + done == before;
      for i := 0 to passes
        invariant done <= rows && data == Copied(store, from, to, before + done) && pass == More(scanStart)
        invariant Compare(scanStart, TablePrefix(from, shard)) != Less
        invariant i == 0 ==> CopiedUpTo(rows, done, scanStart, false)
        invariant i > 0 ==> IsStuck(rows, done, scanStart, batchSize)
      {
        CopiedWellKeyed(store, from, to, before + done);
        ghost var pairs;
        ghost var stuck := scanStart;
        pass, pairs := LoadPage(scanStart, scanEnd, newPrefix, i > 0, batchSize);
        ghost var limit := if batchSize >= 0 then batchSize else |pairs| + 1;
        PageIsNext(store, from, to, shard, before + done, scanStart, limit, pairs);
        if i == 0 {
          FirstPageSticks(rows, done, scanStart, batchSize, pairs);
          CopyPage(store, from, to, shard, before, done, scanStart, false, limit, pairs);
          PageStart(rows, scanStart, limit, pairs, TablePrefix(from, shard));
          done := done + KeysOf(pairs);
        } else {
          OneRowPagesRepeat(rows, done, scanStart, batchSize, pairs);
          NoPuts(Copied(store, from, to, before + done), newPrefix);
        }
        scanStart := pass.start;
      }
    }

    /** All shards: if it comes to its end every row of `from` in the given shards has one copy in `to`, with the
        same value and key suffix, and nothing else has changed; and however it ends, what has
        changed is that some of these rows have been copied. */
    method LoadInitialState(shards: seq<U64>, from: U64, to: U64, batchSize: int) returns (outcome: Outcome)
      requires batchSize == 1 || batchSize == -1 ==> AllRows(data, from, shards) == {}
      requires from != to && from + 1 < TWO_64 && WellKeyed(data)
      modifies this
      ensures outcome.Loaded? ==> data == Copied(old(data), from, to, AllRows(old(data), from, shards))
      ensures outcome.Loaded? ==> batchSize > 0 || shards == []
      ensures outcome.Panicked? ==> batchSize <= 0 && data == old(data)
      ensures exists part :: part <= AllRows(old(data), from, shards) && data == Copied(old(data), from, to, part)
    {
      hide Copied, WellKeyed;
      ghost var store := data;
      NoCopies(store, from, to);
      for i := 0 to |shards|
        invariant data == Copied(store, from, to, AllRows(store, from, shards[..i]))
        invariant AllRows(store, from, shards[..i]) <= AllRows(store, from, shards)
        invariant i > 0 ==> batchSize > 0
      {
        ghost var before := AllRows(store, from, shards[..i]);
        assert shards[..i + 1][..i] == shards[..i];
        AllRowsOfTable(store, from, shards[..i]);
        RowsAmongAll(store, from, shards, i);
        var one := LoadShard(from, to, shards[i], batchSize, store, before);
        ghost var part :| part <= RowsOf(store, from, shards[i]) && data == Copied(store, from, to, before + part);
        assert before + part <= AllRows(store, from, shards);
        if !one.Loaded? {
          return one;
        }
      }
      assert shards[..|shards|] == shards;
      return Loaded;
    }
  }

  datatype Outcome = Loaded | Interrupted | Panicked

  /** What a pass leads to: the shard's end, another pass from this key, or a lookup outside the page. */
  datatype Pass = Last | More(start: Bytes) | OutOfRange

  /** The pairs of a page that are written. */
  function Kept(pairs: seq<Pair>, skipFirst: bool): (kept: seq<Pair>)
    ensures forall p :: p in kept ==> p in pairs
  {
    if skipFirst && pairs != [] then pairs[1..] else pairs
  }

  lemma NoPuts(store: Store, newPrefix: Bytes)
    ensures PutAll(store, Renamed([], newPrefix)) == store
  {
  }

  lemma {:induction false} RowsAmongAll(store: Store, table: U64, shards: seq<U64>, i: nat)
    requires i < |shards|
    ensures RowsOf(store, table, shards[i]) <= AllRows(store, table, shards)
    ensures AllRows(store, table, shards[..i + 1]) <= AllRows(store, table, shards)
  {
    var n := |shards| - 1;
    if i < n {
      RowsAmongAll(store, table, shards[..n], i);
      assert shards[..n][..i + 1] == shards[..i + 1];
    } else {
      assert shards[..i + 1] == shards;
    }
  }

  ghost function AllRows(store: Store, table: U64, shards: seq<U64>): (rows: set<Bytes>)
    ensures rows <= store.Keys
  {
    if shards == [] then {}
    else AllRows(store, table, shards[..|shards| - 1]) + RowsOf(store, table, shards[|shards| - 1])
  }

  lemma {:induction false} AllRowsOfTable(store: Store, table: U64, shards: seq<U64>)
    ensures forall r :: r in AllRows(store, table, shards) ==> TableOf(r, table)
  {
    if shards != [] {
      AllRowsOfTable(store, table, shards[..|shards| - 1]);
      RowsAreOfTable(store, table, shards[|shards| - 1]);
    }
  }

  lemma NoCopies(store: Store, from: U64, to: U64)
    requires WellKeyed(store)
    ensures Copied(store, from, to, {}) == store
  {
  }

  function PutAll(store: Store, puts: seq<Pair>): Store {
    if puts == [] then store else PutAll(store, puts[..|puts| - 1])[puts[|puts| - 1].0 := puts[|puts| - 1].1]
  }

  function Renamed(pairs: seq<Pair>, newPrefix: Bytes): (r: seq<Pair>)
    requires forall i :: 0 <= i < |pairs| ==> |pairs[i].0| >= 16
    ensures |r| == |pairs|
    ensures forall i :: 0 <= i < |pairs| ==> r[i] == (newPrefix + pairs[i].0[16..], pairs[i].1)
  {
    seq(|pairs|, i requires 0 <= i < |pairs| => (newPrefix + pairs[i].0[16..], pairs[i].1))
  }

  lemma RenamedSnoc(pairs: seq<Pair>, n: nat, newPrefix: Bytes)
    requires n < |pairs| && forall i :: 0 <= i < |pairs| ==> |pairs[i].0| >= 16
    ensures Renamed(pairs[..n + 1], newPrefix)
      == Renamed(pairs[..n], newPrefix) + [(newPrefix + pairs[n].0[16..], pairs[n].1)]
  {
  }

  lemma NoKeys()
    ensures KeysOf([]) == {}
  {
  }

  lemma KeysSnoc(pairs: seq<Pair>, p: Pair)
    ensures KeysOf(pairs + [p]) == KeysOf(pairs) + {p.0}
  {
    var more := pairs + [p];
    assert more[|pairs|] == p;
    forall k | k in KeysOf(pairs) ensures k in KeysOf(more) {
      var i :| 0 <= i < |pairs| && pairs[i].0 == k;
      assert more[i].0 == k;
    }
  }

  // ---- Copying page by page -----------------------------------------------------------------------

  /** The pairs are rows of the table as the store had them. */
  predicate AreRows(store: Store, from: U64, shard: U64, pairs: seq<Pair>) {
    forall i :: 0 <= i < |pairs| ==>
      RowOf(pairs[i].0, from, shard) && pairs[i].0 in store && store[pairs[i].0] == pairs[i].1
  }

  lemma {:induction false} PageCopies(store: Store, from: U64, to: U64, shard: U64, rows: set<Bytes>, pairs: seq<Pair>)
    requires WellKeyed(store) && rows <= store.Keys && AreRows(store, from, shard, pairs)
    ensures KeysOf(pairs) <= store.Keys
    ensures PutAll(Copied(store, from, to, rows), Renamed(pairs, TablePrefix(to, shard)))
      == Copied(store, from, to, rows + KeysOf(pairs))
  {
    hide Copied, WellKeyed, TablePrefix, KeysOf;
    if pairs == [] {
      NoKeys();
      assert rows + {} == rows;
    } else {
      var n := |pairs| - 1;
      var (front, last) := (pairs[..n], pairs[n]);
      PageCopies(store, from, to, shard, rows, front);
      KeysSnoc(front, last);
      assert front + [last] == pairs;
      RowTable(last.0, from, shard);
      CopyOneMore(store, from, to, rows + KeysOf(front), last.0);
      assert Renamed(pairs, TablePrefix(to, shard))[..n] == Renamed(front, TablePrefix(to, shard));
      assert rows + KeysOf(front) + {last.0} == rows + KeysOf(pairs);
    }
  }

  ghost function RowsOf(store: Store, table: U64, shard: U64): set<Bytes> {
    set k | k in store && RowOf(k, table, shard)
  }

  /** Rows up to and including a key. */
  ghost function UpTo(rows: set<Bytes>, k: Bytes): set<Bytes> {
    set r | r in rows && Compare(k, r) != Less
  }

  lemma RowInRange(k: Bytes, table: U64, shard: U64)
    requires table + 1 < TWO_64 && |k| >= 16
    ensures RowOf(k, table, shard) <==> InRange(k, TablePrefix(table, shard), TablePrefix(table + 1, shard))
  {
    TableScan(table, shard, k);
  }

  /** A page read from the store with copies in it is a page of the table's rows. */
  lemma PageHasRows(store: Store, from: U64, to: U64, shard: U64, rows: set<Bytes>, start: Bytes, limit: nat,
                    pairs: seq<Pair>)
    requires WellKeyed(store) && rows <= store.Keys && from != to && from + 1 < TWO_64
    requires forall r :: r in rows ==> TableOf(r, from)
    requires Compare(start, TablePrefix(from, shard)) != Less
    requires IsPage(Copied(store, from, to, rows), start, TablePrefix(from + 1, shard), limit, pairs)
    ensures AreRows(store, from, shard, pairs)
    ensures forall k :: k in RowsOf(store, from, shard) && Compare(k, start) != Less && k !in KeysOf(pairs) ==>
              |pairs| == limit && forall i :: 0 <= i < |pairs| ==> Compare(pairs[i].0, k) == Less
  {
    hide Copied, KeysOf, TablePrefix, Compare, WellKeyed;
    var copied := Copied(store, from, to, rows);
    CopiedWellKeyed(store, from, to, rows);
    forall i | 0 <= i < |pairs|
      ensures RowOf(pairs[i].0, from, shard) && pairs[i].0 in store && store[pairs[i].0] == pairs[i].1
    {
      var k := pairs[i].0;
      KeyLength(copied, k);
      NotLessTransitive(k, start, TablePrefix(from, shard));
      RowInRange(k, from, shard);
      RowTable(k, from, shard);
      CopyLeavesRows(store, from, to, rows, k);
    }
    forall k | k in RowsOf(store, from, shard) && Compare(k, start) != Less && k !in KeysOf(pairs)
      ensures |pairs| == limit && forall i :: 0 <= i < |pairs| ==> Compare(pairs[i].0, k) == Less
    {
      RowInRange(k, from, shard);
      RowTable(k, from, shard);
      CopyLeavesRows(store, from, to, rows, k);
    }
  }

  lemma KeyLength(store: Store, k: Bytes)
    requires WellKeyed(store) && k in store
    ensures |k| >= 16 && Short((k, store[k]))
  {
  }

  /** How far a copy has come: nothing yet, or everything up to the row where the next page starts. */
  ghost predicate CopiedUpTo(rows: set<Bytes>, done: set<Bytes>, start: Bytes, skipFirst: bool) {
    if skipFirst then start in rows && done == UpTo(rows, start)
    else done == {} && forall r :: r in rows ==> Compare(r, start) != Less
  }

  /** The pairs are the next page of the rows. */
  ghost predicate NextPage(rows: set<Bytes>, start: Bytes, limit: nat, pairs: seq<Pair>) {
    && |pairs| <= limit && KeysAscend(pairs)
    && (forall i :: 0 <= i < |pairs| ==> pairs[i].0 in rows && Compare(pairs[i].0, start) != Less)
    && (forall k :: k in rows && Compare(k, start) != Less && k !in KeysOf(pairs) ==>
          |pairs| == limit && forall i :: 0 <= i < |pairs| ==> Compare(pairs[i].0, k) == Less)
  }

  /** The row a page starts from comes first in it. */
  lemma PageRepeatsFirst(rows: set<Bytes>, start: Bytes, limit: nat, pairs: seq<Pair>)
    requires start in rows && limit > 0 && NextPage(rows, start, limit, pairs)
    ensures pairs != [] && pairs[0].0 == start
  {
    hide Compare;
    CompareEqual(start, start);
    assert |pairs| > 0 ==> Compare(pairs[0].0, start) != Less;
    assert start in KeysOf(pairs);
    var j :| 0 <= j < |pairs| && pairs[j].0 == start;
    FirstComesFirst(pairs, j);
  }

  lemma FirstComesFirst(pairs: seq<Pair>, j: nat)
    requires KeysAscend(pairs) && j < |pairs|
    ensures j == 0 || Compare(pairs[0].0, pairs[j].0) == Less
  {
  }

  lemma LastPage(rows: set<Bytes>, done: set<Bytes>, start: Bytes, skipFirst: bool, limit: nat, pairs: seq<Pair>)
    requires CopiedUpTo(rows, done, start, skipFirst) && NextPage(rows, start, limit, pairs) && |pairs| < limit
    ensures done + KeysOf(pairs) == rows
  {
    hide Compare;
    forall r | r in rows ensures r in done + KeysOf(pairs) {
      if Compare(r, start) == Less {
        CompareFlips(r, start);
      }
    }
  }

  lemma FullPage(rows: set<Bytes>, done: set<Bytes>, start: Bytes, skipFirst: bool, limit: nat, pairs: seq<Pair>)
    requires CopiedUpTo(rows, done, start, skipFirst) && NextPage(rows, start, limit, pairs) && pairs != []
    requires skipFirst ==> |pairs| >= 2 && limit > 0
    ensures var last := pairs[|pairs| - 1].0;
            CopiedUpTo(rows, done + KeysOf(pairs), last, true) && last in rows && last !in done
  {
    hide Compare;
    var last := pairs[|pairs| - 1].0;
    forall i | 0 <= i < |pairs| ensures Compare(last, pairs[i].0) != Less {
      if i < |pairs| - 1 {
        CompareFlips(pairs[i].0, last);
      } else {
        CompareEqual(last, last);
      }
    }
    forall r | r in rows ensures r in done + KeysOf(pairs) <==> Compare(last, r) != Less {
      if r in done {
        NotLessTransitive(last, start, r);
      } else if r !in KeysOf(pairs) {
        if Compare(r, start) == Less {
          CompareFlips(r, start);
        }
      }
    }
    if skipFirst {
      PageRepeatsFirst(rows, start, limit, pairs);
      assert Compare(pairs[0].0, last) == Less;
    }
  }

  lemma NothingCopied(store: Store, from: U64, shard: U64)
    requires from + 1 < TWO_64
    ensures CopiedUpTo(RowsOf(store, from, shard), {}, TablePrefix(from, shard), false)
  {
    hide TablePrefix;
    forall r | r in RowsOf(store, from, shard) ensures Compare(r, TablePrefix(from, shard)) != Less {
      RowInRange(r, from, shard);
    }
  }

  lemma RowsAreOfTable(store: Store, from: U64, shard: U64)
    ensures forall r :: r in RowsOf(store, from, shard) ==> TableOf(r, from)
  {
    forall r | r in RowsOf(store, from, shard) ensures TableOf(r, from) {
      RowTable(r, from, shard);
    }
  }

  lemma PageIsNext(store: Store, from: U64, to: U64, shard: U64, copied: set<Bytes>, start: Bytes, limit: nat,
                   pairs: seq<Pair>)
    requires WellKeyed(store) && copied <= store.Keys && from != to && from + 1 < TWO_64
    requires forall r :: r in copied ==> TableOf(r, from)
    requires Compare(start, TablePrefix(from, shard)) != Less
    requires IsPage(Copied(store, from, to, copied), start, TablePrefix(from + 1, shard), limit, pairs)
    ensures AreRows(store, from, shard, pairs) && NextPage(RowsOf(store, from, shard), start, limit, pairs)
  {
    PageHasRows(store, from, to, shard, copied, start, limit, pairs);
  }

  /** Writing a page, with or without its repeated first row, copies exactly its rows. */
  lemma CopyPage(store: Store, from: U64, to: U64, shard: U64, before: set<Bytes>, done: set<Bytes>, start: Bytes,
                 skipFirst: bool, limit: nat, pairs: seq<Pair>)
    requires WellKeyed(store) && before <= store.Keys && done <= RowsOf(store, from, shard) && limit > 0
    requires AreRows(store, from, shard, pairs) && NextPage(RowsOf(store, from, shard), start, limit, pairs)
    requires CopiedUpTo(RowsOf(store, from, shard), done, start, skipFirst)
    ensures KeysOf(pairs) <= RowsOf(store, from, shard)
    ensures PutAll(Copied(store, from, to, before + done), Renamed(Kept(pairs, skipFirst), TablePrefix(to, shard)))
         == Copied(store, from, to, before + (done + KeysOf(pairs)))
  {
    hide Copied, WellKeyed, TablePrefix, Compare, PutAll;
    var kept := Kept(pairs, skipFirst);
    PageCopies(store, from, to, shard, before + done, kept);
    if skipFirst {
      PageRepeatsFirst(RowsOf(store, from, shard), start, limit, pairs);
      CompareEqual(start, start);
      assert [pairs[0]] + pairs[1..] == pairs;
      KeysCons(pairs);
    }
    assert before + done + KeysOf(kept) == before + (done + KeysOf(pairs));
  }

  lemma KeysCons(pairs: seq<Pair>)
    requires pairs != []
    ensures KeysOf(pairs) == {pairs[0].0} + KeysOf(pairs[1..])
  {
    forall k | k in KeysOf(pairs[1..]) ensures k in KeysOf(pairs) {
      var i :| 0 <= i < |pairs[1..]| && pairs[1..][i].0 == k;
      assert pairs[i + 1].0 == k;
    }
    forall k | k in KeysOf(pairs) && k != pairs[0].0 ensures k in KeysOf(pairs[1..]) {
      var i :| 0 <= i < |pairs| && pairs[i].0 == k;
      assert pairs[1..][i - 1].0 == k;
    }
  }

  lemma PageStart(rows: set<Bytes>, start: Bytes, limit: nat, pairs: seq<Pair>, prefix: Bytes)
    requires NextPage(rows, start, limit, pairs) && pairs != [] && Compare(start, prefix) != Less
    ensures Compare(pairs[|pairs| - 1].0, prefix) != Less
  {
    NotLessTransitive(pairs[|pairs| - 1].0, start, prefix);
  }

  lemma Shrinks(rows: set<Bytes>, done: set<Bytes>, more: set<Bytes>, x: Bytes)
    requires done <= more && x in rows && x in more && x !in done
    ensures |rows - more| < |rows - done|
  {
    assert rows - more <= (rows - done) - {x};
    Subset(rows - more, (rows - done) - {x});
  }

  lemma {:induction false} Subset(a: set<Bytes>, b: set<Bytes>)
    requires a <= b
    ensures |a| <= |b|
  {
    if a != {} {
      var x :| x in a;
      Subset(a - {x}, b - {x});
    }
  }

  /** What a pass writes: its rows are copied. */
  lemma PassCopies(store: Store, from: U64, to: U64, shard: U64, before: set<Bytes>, done: set<Bytes>, start: Bytes,
                   skipFirst: bool, limit: nat, pairs: seq<Pair>)
    requires WellKeyed(store) && before <= store.Keys && (forall r :: r in before ==> TableOf(r, from))
    requires from != to && from + 1 < TWO_64 && done <= RowsOf(store, from, shard) && limit > 0
    requires Compare(start, TablePrefix(from, shard)) != Less
    requires CopiedUpTo(RowsOf(store, from, shard), done, start, skipFirst)
    requires IsPage(Copied(store, from, to, before + done), start, TablePrefix(from + 1, shard), limit, pairs)
    ensures AreRows(store, from, shard, pairs) && KeysOf(pairs) <= RowsOf(store, from, shard)
    ensures NextPage(RowsOf(store, from, shard), start, limit, pairs)
    ensures PutAll(Copied(store, from, to, before + done), Renamed(Kept(pairs, skipFirst), TablePrefix(to, shard)))
         == Copied(store, from, to, before + (done + KeysOf(pairs)))
  {
    hide Copied, WellKeyed, CopiedUpTo, TablePrefix, Compare, PutAll, IsPage, NextPage, KeysOf;
    RowsAreOfTable(store, from, shard);
    PageIsNext(store, from, to, shard, before + done, start, limit, pairs);
    CopyPage(store, from, to, shard, before, done, start, skipFirst, limit, pairs);
  }

  /** What a pass leads to: it was the last one, or it brings the copying forward. */
  lemma PassMoves(rows: set<Bytes>, done: set<Bytes>, start: Bytes, skipFirst: bool, batchSize: int, pairs: seq<Pair>,
                  prefix: Bytes)
    requires CopiedUpTo(rows, done, start, skipFirst) && (skipFirst ==> batchSize >= 2) && done <= rows
    requires NextPage(rows, start, if batchSize >= 0 then batchSize else |pairs| + 1, pairs)
    requires Compare(start, prefix) != Less
    requires batchSize == 1 || batchSize == -1 ==> rows == {}
    requires batchSize >= -1 && (pairs != [] || batchSize > 0)
    ensures |pairs| < batchSize ==> done + KeysOf(pairs) == rows
    ensures |pairs| >= batchSize ==>
              && batchSize >= 2 && Compare(pairs[|pairs| - 1].0, prefix) != Less
              && CopiedUpTo(rows, done + KeysOf(pairs), pairs[|pairs| - 1].0, true)
              && |rows - (done + KeysOf(pairs))| < |rows - done|
  {
    hide CopiedUpTo, Compare, KeysOf;
    if |pairs| < batchSize {
      LastPage(rows, done, start, skipFirst, batchSize, pairs);
    } else {
      var limit := if batchSize >= 0 then batchSize else |pairs| + 1;
      PageOfNoRows(rows, start, limit, pairs);
      FullPage(rows, done, start, skipFirst, limit, pairs);
      PageStart(rows, start, limit, pairs, prefix);
      LastIn(pairs);
      Shrinks(rows, done, done + KeysOf(pairs), pairs[|pairs| - 1].0);
    }
  }

  lemma LastIn(pairs: seq<Pair>)
    requires pairs != []
    ensures pairs[|pairs| - 1].0 in KeysOf(pairs)
  {
  }

  lemma PageOfNoRows(rows: set<Bytes>, start: Bytes, limit: nat, pairs: seq<Pair>)
    requires NextPage(rows, start, limit, pairs) && pairs != []
    ensures rows != {}
  {
    assert pairs[0].0 in rows;
  }

  /** Where pages of one row or of all rows get stuck: the next page starts from the row that was copied last. */
  ghost predicate IsStuck(rows: set<Bytes>, done: set<Bytes>, start: Bytes, batchSize: int) {
    start in done && CopiedUpTo(rows, done, start, true) && (batchSize == -1 ==> done == rows)
  }

  lemma FirstPageSticks(rows: set<Bytes>, done: set<Bytes>, start: Bytes, batchSize: int, pairs: seq<Pair>)
    requires (batchSize == 1 || batchSize == -1) && rows != {} && CopiedUpTo(rows, done, start, false)
    requires NextPage(rows, start, if batchSize >= 0 then batchSize else |pairs| + 1, pairs)
    ensures pairs != [] && !(|pairs| < batchSize)
    ensures IsStuck(rows, done + KeysOf(pairs), pairs[|pairs| - 1].0, batchSize)
  {
    hide Compare;
    var limit := if batchSize >= 0 then batchSize else |pairs| + 1;
    var r :| r in rows;
    assert r in KeysOf(pairs) || |pairs| == limit;
    FullPage(rows, done, start, false, limit, pairs);
    if batchSize == -1 {
      LastPage(rows, done, start, false, limit, pairs);
    }
  }

  /** A pass that is stuck reads the row it starts from and nothing else: it writes nothing, is not the last, and
      the next pass starts from the same row. */
  lemma OneRowPagesRepeat(rows: set<Bytes>, done: set<Bytes>, start: Bytes, batchSize: int, pairs: seq<Pair>)
    requires (batchSize == 1 || batchSize == -1) && IsStuck(rows, done, start, batchSize)
    requires NextPage(rows, start, if batchSize >= 0 then batchSize else |pairs| + 1, pairs)
    ensures |pairs| == 1 && pairs[0].0 == start && Kept(pairs, true) == [] && !(|pairs| < batchSize)
  {
    hide Compare;
    PageRepeatsFirst(rows, start, if batchSize >= 0 then batchSize else |pairs| + 1, pairs);
    if batchSize == -1 {
      forall i | 0 <= i < |pairs| ensures Compare(start, pairs[i].0) != Less {
        assert pairs[i].0 in UpTo(rows, start);
      }
      AtMostOne(pairs);
    }
  }

  lemma AtMostOne(pairs: seq<Pair>)
    requires KeysAscend(pairs) && forall i :: 0 <= i < |pairs| ==> Compare(pairs[0].0, pairs[i].0) != Less
    ensures |pairs| <= 1
  {
    if |pairs| > 1 {
      FirstComesFirst(pairs, 1);
    }
  }
}
