/** Write batches: keys and values appended to one buffer with their lengths, and read back from it. */
module WriteBatches {
  import opened Bytes

  type Pair = (Bytes, Bytes)

  /** A length in four bytes, then the bytes. */
  function WithLength(b: Bytes): Bytes { LittleEndian(|b| % TWO_32, 4) + b }

  function PutBytes(p: Pair): Bytes { WithLength(p.0) + WithLength(p.1) }

  /** Entries one after another, each encoded in the same way. */
  function Encode<T>(entries: seq<T>, one: T -> Bytes): Bytes {
    if entries == [] then [] else Encode(entries[..|entries| - 1], one) + one(entries[|entries| - 1])
  }

  /** The encoding from the i-th entry on. */
  function EncodeFrom<T>(entries: seq<T>, one: T -> Bytes, i: nat): Bytes
    requires i <= |entries|
    decreases |entries| - i
  {
    if i == |entries| then [] else one(entries[i]) + EncodeFrom(entries, one, i + 1)
  }

  lemma {:induction false} EncodeSplit<T>(entries: seq<T>, one: T -> Bytes, i: nat)
    requires i <= |entries|
    ensures Encode(entries, one) == Encode(entries[..i], one) + EncodeFrom(entries, one, i)
    decreases |entries| - i
  {
    if i == |entries| {
      assert entries[..i] == entries;
    } else {
      EncodeSplit(entries, one, i + 1);
      assert entries[..i + 1][..i] == entries[..i];
      Associates(Encode(entries[..i], one), one(entries[i]), EncodeFrom(entries, one, i + 1));
    }
  }

  lemma EncodeSnoc<T>(entries: seq<T>, one: T -> Bytes, entry: T)
    ensures Encode(entries + [entry], one) == Encode(entries, one) + one(entry)
  {
    assert (entries + [entry])[..|entries|] == entries;
  }

  lemma Associates(a: Bytes, b: Bytes, c: Bytes)
    ensures (a + b) + c == a + (b + c)
  {
  }

  predicate Short(p: Pair) { |p.0| < TWO_32 && |p.1| < TWO_32 }

  /** The length-prefixed bytes at an offset and the offset after them, if they are there. */
  function ReadWithLength(buf: Bytes, offset: nat): Option<(Bytes, nat)> {
    if offset + 4 > |buf| then None
    else
      var n := FromLittleEndian(buf[offset..offset + 4]);
      if offset + 4 + n > |buf| then None else Some((buf[offset + 4..offset + 4 + n], offset + 4 + n))
  }

  lemma ReadsBack(pre: Bytes, b: Bytes, rest: Bytes)
    requires |b| < TWO_32
    ensures ReadWithLength(pre + WithLength(b) + rest, |pre|) == Some((b, |pre| + |WithLength(b)|))
  {
    var buf := pre + WithLength(b) + rest;
    assert buf[|pre|..|pre| + 4] == LittleEndian(|b|, 4);
    PowWidths();
    LittleEndianRoundTrip(|b|, 4);
    assert buf[|pre| + 4..|pre| + 4 + |b|] == b;
  }

  /** Reading a key and a value where one put has been encoded. */
  lemma PutReadsBack(pre: Bytes, p: Pair, rest: Bytes)
    requires Short(p)
    ensures var buf := pre + (PutBytes(p) + rest);
            var middle := |pre| + |WithLength(p.0)|;
            && ReadWithLength(buf, |pre|) == Some((p.0, middle))
            && ReadWithLength(buf, middle) == Some((p.1, |pre| + |PutBytes(p)|))
  {
    hide ReadWithLength;
    var buf := pre + (PutBytes(p) + rest);
    assert buf == pre + WithLength(p.0) + (WithLength(p.1) + rest);
    ReadsBack(pre, p.0, WithLength(p.1) + rest);
    assert buf == (pre + WithLength(p.0)) + WithLength(p.1) + rest;
    ReadsBack(pre + WithLength(p.0), p.1, rest);
  }

  lemma TakesRoom()
    ensures forall b: Bytes :: WithLength(b) != []
    ensures forall p: Pair :: PutBytes(p) != []
  {
  }

  class WriteBatch {
    var puts: Bytes
    var deletes: Bytes
    var numPuts: nat
    var numDeletes: nat
    ghost var added: seq<Pair>
    ghost var removed: seq<Bytes>

    /** The buffers are the encoding of what was added. */
    ghost predicate Valid()
      reads this
    {
      && puts == Encode(added, PutBytes) && numPuts == |added| && (forall i :: 0 <= i < |added| ==> Short(added[i]))
      && deletes == Encode(removed, WithLength) && numDeletes == |removed|
      && (forall i :: 0 <= i < |removed| ==> |removed[i]| < TWO_32)
    }

    constructor ()
      ensures Valid() && added == [] && removed == []
    {
      puts, numPuts, added := [], 0, [];
      deletes, numDeletes, removed := [], 0, [];
    }

    method AddPut(k: Bytes, v: Bytes)
      requires Valid() && Short((k, v))
      modifies this
      ensures Valid() && added == old(added) + [(k, v)] && removed == old(removed)
    {
      hide Encode, WithLength;
      EncodeSnoc(added, PutBytes, (k, v));
      Associates(puts, WithLength(k), WithLength(v));
      puts := puts + WithLength(k);
      puts := puts + WithLength(v);
      numPuts := numPuts + 1;
      added := added + [(k, v)];
    }

    method AddDelete(k: Bytes)
      requires Valid() && |k| < TWO_32
      modifies this
      ensures Valid() && added == old(added) && removed == old(removed) + [k]
    {
      hide Encode, WithLength;
      EncodeSnoc(removed, WithLength, k);
      deletes := deletes + WithLength(k);
      numDeletes := numDeletes + 1;
      removed := removed + [k];
    }

    /** The pairs a receiver is called with are the pairs that were added, in order. */
    method ForEachPut() returns (received: seq<Pair>)
      requires Valid()
      ensures received == added
    {
      hide PutBytes, ReadWithLength;
      received := [];
      var offset := 0;
      EncodeSplit(added, PutBytes, 0);
      while offset < |puts|
        invariant |received| <= |added| && received == added[..|received|]
        invariant offset == |Encode(received, PutBytes)|
        invariant puts == Encode(received, PutBytes) + EncodeFrom(added, PutBytes, |received|)
        decreases |added| - |received|
      {
        ghost var i := |received|;
        PutReadsBack(Encode(received, PutBytes), added[i], EncodeFrom(added, PutBytes, i + 1));
        var (k, afterKey) := ReadWithLength(puts, offset).value;
        var (v, afterValue) := ReadWithLength(puts, afterKey).value;
        assert added[..i + 1][..i] == received;
        received := received + [(k, v)];
        offset := afterValue;
        EncodeSplit(added, PutBytes, i + 1);
      }
      TakesRoom();
      NothingLeft(added, PutBytes, |received|);
    }

    /** The keys a receiver is called with are the keys that were added, in order. */
    method ForEachDelete() returns (received: seq<Bytes>)
      requires Valid()
      ensures received == removed
    {
      hide WithLength, ReadWithLength;
      received := [];
      var offset := 0;
      EncodeSplit(removed, WithLength, 0);
      while offset < |deletes|
        invariant |received| <= |removed| && received == removed[..|received|]
        invariant offset == |Encode(received, WithLength)|
        invariant deletes == Encode(received, WithLength) + EncodeFrom(removed, WithLength, |received|)
        decreases |removed| - |received|
      {
        ghost var i := |received|;
        ghost var (pre, rest) := (Encode(received, WithLength), EncodeFrom(removed, WithLength, i + 1));
        Associates(pre, WithLength(removed[i]), rest);
        ReadsBack(pre, removed[i], rest);
        var (k, afterKey) := ReadWithLength(deletes, offset).value;
        assert removed[..i + 1][..i] == received;
        received := received + [k];
        offset := afterKey;
        EncodeSplit(removed, WithLength, i + 1);
      }
      TakesRoom();
      NothingLeft(removed, WithLength, |received|);
    }
  }

  /** As entries take room, a loop over the buffer ends only after the last one. */
  lemma NothingLeft<T>(entries: seq<T>, one: T -> Bytes, i: nat)
    requires i <= |entries| && EncodeFrom(entries, one, i) == []
    requires i < |entries| ==> one(entries[i]) != []
    ensures entries[..i] == entries
  {
  }
}
