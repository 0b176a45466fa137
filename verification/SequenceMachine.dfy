/** The replicated sequence generator: a map of names to counters in the store, updated in batches with
    a cache of the values the batch itself has written. */
module SequenceMachine {
  import opened Bytes
  import StringKeys
  import opened TableKeys
  import opened NamedKeys

  const SEQUENCE_TABLE: U64 := 2
  const SEQUENCE_CLUSTER: U64 := 1

  function SequenceKey(name: Bytes): Bytes { NameKey(SEQUENCE_TABLE, SEQUENCE_CLUSTER, name) }

  /** How often a name has been asked for. */
  function Asked(names: seq<Bytes>, name: Bytes): nat {
    if names == [] then 0 else Asked(names[..|names| - 1], name) + if names[|names| - 1] == name then 1 else 0
  }

  lemma {:induction false} AskedGrows(log: seq<Bytes>, i: nat, j: nat, name: Bytes)
    requires i < j <= |log|
    ensures Asked(log[..j], name) >= Asked(log[..i], name) + if log[i] == name then 1 else 0
    decreases j
  {
    assert log[..j][..j - 1] == log[..j - 1];
    if i < j - 1 {
      AskedGrows(log, i, j - 1, name);
    }
  }

  /** Over a whole log, whatever its batches, each number below the count is the answer to exactly one
      request for the name. */
  lemma {:induction false} EachNumberOnce(log: seq<Bytes>, name: Bytes, k: nat) returns (i: nat)
    requires k < Asked(log, name)
    ensures i < |log| && log[i] == name && Asked(log[..i], name) == k
    ensures forall j :: 0 <= j < |log| && log[j] == name && Asked(log[..j], name) == k ==> j == i
  {
    var n := |log| - 1;
    if k < Asked(log[..n], name) {
      i := EachNumberOnce(log[..n], name, k);
      assert log[..n][..i] == log[..i];
    } else {
      i := n;
    }
    forall j | 0 <= j < |log| && log[j] == name && j != i ensures Asked(log[..j], name) != k {
      if j < i {
        AskedGrows(log, j, i, name);
      } else {
        AskedGrows(log, i, j, name);
      }
    }
  }

  /** The store after a log of requests: every counter holds how often it was asked for. */
  ghost predicate Counts(store: Store, names: seq<Bytes>) {
    forall name ::
      && (SequenceKey(name) in store <==> Asked(names, name) > 0)
      && (SequenceKey(name) in store ==> store[SequenceKey(name)] == LittleEndian(Asked(names, name) % TWO_64, 8))
  }

  /** What the k-th request for a name is answered. */
  function Answer(k: nat): Bytes { LittleEndian(k % TWO_64, 8) }

  lemma AnswerReads(k: nat)
    ensures FromLittleEndian(Answer(k)) == k % TWO_64
  {
    PowWidths();
    LittleEndianRoundTrip(k % TWO_64, 8);
  }

  lemma WrapsOnce(k: nat)
    ensures (k % TWO_64 + 1) % TWO_64 == (k + 1) % TWO_64
  {
  }

  lemma AskedSnoc(names: seq<Bytes>, name: Bytes, n: Bytes)
    ensures Asked(names + [name], n) == Asked(names, n) + if name == n then 1 else 0
  {
    assert (names + [name])[..|names|] == names;
  }

  lemma CountsNext(store: Store, names: seq<Bytes>, name: Bytes)
    requires Counts(store, names)
    ensures Counts(store[SequenceKey(name) := LittleEndian((Asked(names, name) + 1) % TWO_64, 8)], names + [name])
  {
    hide NameKey, LittleEndian, Asked;
    var store' := store[SequenceKey(name) := LittleEndian((Asked(names, name) + 1) % TWO_64, 8)];
    forall n
      ensures SequenceKey(n) in store' <==> Asked(names + [name], n) > 0
      ensures SequenceKey(n) in store' ==> store'[SequenceKey(n)] == LittleEndian(Asked(names + [name], n) % TWO_64, 8)
    {
      AskedSnoc(names, name, n);
      if n != name && SequenceKey(n) == SequenceKey(name) {
        NameKeyInjective(SEQUENCE_TABLE, SEQUENCE_CLUSTER, n, name);
      }
    }
  }

  lemma CountsLastIndex(store: Store, names: seq<Bytes>, v: Bytes)
    requires Counts(store, names)
    ensures Counts(store[TablePrefix(LAST_LOG_INDEX_TABLE, SEQUENCE_CLUSTER) := v], names)
  {
    hide NameKey, InTable, TablePrefix, LittleEndian;
    PrefixNotInTable(SEQUENCE_TABLE, LAST_LOG_INDEX_TABLE, SEQUENCE_CLUSTER);
    forall n ensures SequenceKey(n) != TablePrefix(LAST_LOG_INDEX_TABLE, SEQUENCE_CLUSTER) {
      NameKeyInTable(SEQUENCE_TABLE, SEQUENCE_CLUSTER, n);
    }
  }

  class SequenceStateMachine {
    var store: Store

    constructor ()
      ensures Counts(store, [])
    {
      store := map[];
    }

    /** One request: the value before it, from the cache or the store, and the next value. */
    method Take(name: Bytes, batch: StoreBatch, latest: Store, ghost seen: seq<Bytes>)
      returns (batch': StoreBatch, latest': Store, answer: Bytes)
      requires Caches(latest, batch) && Counts(Commit(store, batch), seen)
      ensures Caches(latest', batch') && Counts(Commit(store, batch'), seen + [name])
      ensures answer == Answer(Asked(seen, name))
    {
      hide Commit, Counts, NameKey, LittleEndian, Asked;
      var key := SequenceKey(name);
      var v := if key in latest then Some(latest[key]) else if key in store then Some(store[key]) else None;
      CommitAt(store, batch, key);
      CountsAt(Commit(store, batch), seen, name);
      AnswerReads(Asked(seen, name));
      var value: U64 := 0;
      answer := LittleEndian(0, 8);
      if v.Some? {
        value := FromLittleEndian(v.value);
        answer := v.value;
      }
      WrapsOnce(Asked(seen, name));
      var next := LittleEndian((value + 1) % TWO_64, 8);
      CommitSet(store, batch, key, next);
      CountsNext(Commit(store, batch), seen, name);
      batch' := batch[key := Some(next)];
      latest' := latest[key := next];
    }

    /** Each request is answered with how often its name was asked for before, over all batches so far and
        earlier in this batch: every sequence yields 0, 1, 2, ... once each. */
    method Update(entries: seq<Bytes>, lastIndex: Bytes, ghost before: seq<Bytes>) returns (answers: seq<Bytes>)
      requires Counts(store, before)
      modifies this
      ensures Counts(store, before + entries)
      ensures |answers| == |entries|
      ensures forall i :: 0 <= i < |entries| ==> answers[i] == Answer(Asked(before + entries[..i], entries[i]))
    {
      hide Commit, Counts, Answer, Asked;
      var batch: StoreBatch := map[];
      var latest: Store := map[];
      CommitNothing(store);
      assert before + entries[..0] == before;
      answers := [];
      for i := 0 to |entries|
        invariant store == old(store) && Caches(latest, batch) && Counts(Commit(store, batch), before + entries[..i])
        invariant |answers| == i && forall k :: 0 <= k < i ==>
          answers[k] == Answer(Asked(before + entries[..k], entries[k]))
      {
        var answer;
        batch, latest, answer := Take(entries[i], batch, latest, before + entries[..i]);
        assert before + entries[..i + 1] == (before + entries[..i]) + [entries[i]];
        answers := answers + [answer];
      }
      assert entries[..|entries|] == entries;
      var last := TablePrefix(LAST_LOG_INDEX_TABLE, SEQUENCE_CLUSTER);
      CommitSet(store, batch, last, lastIndex);
      CountsLastIndex(Commit(store, batch), before + entries, lastIndex);
      store := Commit(store, batch[last := Some(lastIndex)]);
    }
  }

  /** The cache holds what the batch will write. */
  predicate Caches(latest: Store, batch: StoreBatch) {
    latest.Keys == batch.Keys && forall k :: k in batch ==> batch[k] == Some(latest[k])
  }

  lemma CommitAt(store: Store, batch: StoreBatch, k: Bytes)
    requires forall x :: x in batch ==> batch[x].Some?
    ensures k in Commit(store, batch) <==> k in batch || k in store
    ensures k in batch ==> Commit(store, batch)[k] == batch[k].value
    ensures k !in batch && k in store ==> Commit(store, batch)[k] == store[k]
  {
  }

  lemma CountsAt(store: Store, names: seq<Bytes>, name: Bytes)
    requires Counts(store, names)
    ensures SequenceKey(name) in store <==> Asked(names, name) > 0
    ensures SequenceKey(name) in store ==> store[SequenceKey(name)] == Answer(Asked(names, name))
  {
  }
}
