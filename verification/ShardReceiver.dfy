/** The shard state machine's side of forwarding, as the class that handles forward writes. A batch of entries
    changes the caches at once, and storage only when the whole batch is applied. */
module ShardReceiver {
  import opened Forwarding

  /** What is in storage: the last log index, the last receiver sequence, the dedup table and the receiver
      table. */
  datatype Storage = Storage(lastIndex: nat, sequence: nat, dedup: map<Originator, nat>, rows: map<nat, Row>)

  /** What a batch of the store has collected so far. */
  datatype Pending = Pending(dedup: map<Originator, nat>, rows: map<nat, Row>)

  /** A forward write in the log; the batches it combines are one list of puts. */
  datatype Entry = Entry(index: nat, puts: seq<Forward>)

  const NOTHING: Pending := Pending(map[], map[])

  /** The sequences are written last, and then the whole batch is applied. */
  function Applied(s: Storage, p: Pending, lastIndex: nat, sequence: nat): Storage {
    Storage(lastIndex, sequence, s.dedup + p.dedup, s.rows + p.rows)
  }

  function AllPuts(entries: seq<Entry>): seq<Forward> {
    if entries == [] then [] else AllPuts(entries[..|entries| - 1]) + entries[|entries| - 1].puts
  }

  /** Storage holds what the shard of the protocol holds, dropped rows aside. */
  ghost predicate Holds(s: Storage, sh: Shard) {
    && s.dedup == sh.dedup && s.sequence == |sh.log|
    && forall i :: i in sh.pending && 0 < i <= |sh.log| ==> i in s.rows && s.rows[i] == sh.log[i - 1]
  }

  /** One more row in the batch and one more in the protocol. */
  lemma ReceiveHolds(s: Storage, p: Pending, n: nat, f: Forward, sh: Shard)
    requires Holds(Applied(s, p, 0, n), sh) && !IsDuplicate(sh.dedup, f)
    ensures Holds(Applied(s, Pending(p.dedup[f.origin := f.sequence], p.rows[n + 1 := f.row]), 0, n + 1),
      Receive(sh, f))
  {
    hide AcceptedFrom;
    var sh' := Receive(sh, f);
    assert sh'.log == sh.log + [f.row] && sh'.pending == sh.pending + {n + 1};
    assert (s.dedup + p.dedup)[f.origin := f.sequence] == s.dedup + p.dedup[f.origin := f.sequence];
  }

  lemma {:induction false} ReceiveAllConcat(sh: Shard, a: seq<Forward>, b: seq<Forward>)
    ensures ReceiveAll(sh, a + b) == ReceiveAll(ReceiveAll(sh, a), b)
  {
    hide Receive;
    if b == [] {
      assert a + b == a;
    } else {
      ReceiveAllConcat(sh, a, b[..|b| - 1]);
      assert (a + b)[..|a + b| - 1] == a + b[..|b| - 1];
    }
  }

  class ShardStateMachine {
    var dedupSequences: map<Originator, nat>
    var receiverSequence: nat
    /** Rows for this node's scheduler, filled only while the node is the shard's processor. */
    var forwardRows: seq<nat>
    var stored: Storage
    const isProcessor: bool

    constructor (isProcessor: bool)
      ensures Valid() && Holds(stored, FRESH) && this.isProcessor == isProcessor
    {
      dedupSequences, receiverSequence, forwardRows := map[], 0, [];
      stored := Storage(0, 0, map[], map[]);
      this.isProcessor := isProcessor;
    }

    /** Between batches the caches agree with storage. */
    ghost predicate Valid()
      reads this
    {
      dedupSequences == stored.dedup && receiverSequence == stored.sequence && forwardRows == []
    }

    /** Within a batch the caches are ahead of storage by what the batch has collected. */
    ghost predicate Ahead(p: Pending, sh: Shard)
      reads this
    {
      dedupSequences == stored.dedup + p.dedup && Holds(Applied(stored, p, 0, receiverSequence), sh)
    }

    method DoDedup(f: Forward) returns (ignore: bool)
      modifies this`dedupSequences
      ensures ignore <==> IsDuplicate(old(dedupSequences), f)
      ensures ignore ==> dedupSequences == old(dedupSequences)
      ensures !ignore ==> dedupSequences == old(dedupSequences)[f.origin := f.sequence]
    {
      if f.origin in dedupSequences {
        if dedupSequences[f.origin] >= f.sequence {
          return true;
        }
      }
      dedupSequences := dedupSequences[f.origin := f.sequence];
      return false;
    }

    method CheckDedup(f: Forward, p: Pending) returns (ignore: bool, p': Pending)
      requires dedupSequences == stored.dedup + p.dedup
      modifies this`dedupSequences
      ensures dedupSequences == stored.dedup + p'.dedup
      ensures p' == if ignore then p else p.(dedup := p.dedup[f.origin := f.sequence])
      ensures ignore <==> IsDuplicate(old(dedupSequences), f)
      ensures dedupSequences == if ignore then old(dedupSequences) else old(dedupSequences)[f.origin := f.sequence]
    {
      ignore := DoDedup(f);
      p' := p;
      if !ignore {
        p' := p.(dedup := p.dedup[f.origin := f.sequence]);
      }
    }

    /** One row: screened out, or put into the batch under the next receiver sequence. */
    method HandlePut(f: Forward, p: Pending, ghost sh: Shard) returns (p': Pending)
      requires Ahead(p, sh)
      modifies this`dedupSequences, this`receiverSequence, this`forwardRows
      ensures Ahead(p', Receive(sh, f))
      ensures receiverSequence == old(receiverSequence) + if IsDuplicate(sh.dedup, f) then 0 else 1
      ensures forwardRows
           == old(forwardRows) + if isProcessor then Range(old(receiverSequence), receiverSequence) else []
    {
      hide Receive;
      ghost var n := receiverSequence;
      var ignore;
      ignore, p' := CheckDedup(f, p);
      if ignore {
        Screened(sh, f);
      } else {
        ReceiveHolds(stored, p, n, f, sh);
        receiverSequence := receiverSequence + 1;
        p' := p'.(rows := p'.rows[receiverSequence := f.row]);
        if isProcessor {
          forwardRows := forwardRows + [receiverSequence];
        }
      }
    }

    /** A forward write takes the caches and the batch from one state of the protocol to the state after receiving
        the rows one by one. */
    method HandleForwardWrite(puts: seq<Forward>, p: Pending, ghost sh: Shard) returns (p': Pending)
      requires Ahead(p, sh)
      modifies this`dedupSequences, this`receiverSequence, this`forwardRows
      ensures Ahead(p', ReceiveAll(sh, puts)) && old(receiverSequence) <= receiverSequence
      ensures forwardRows
           == old(forwardRows) + if isProcessor then Range(old(receiverSequence), receiverSequence) else []
    {
      hide Receive;
      p' := p;
      for i := 0 to |puts|
        invariant stored == old(stored) && Ahead(p', ReceiveAll(sh, puts[..i]))
        invariant old(receiverSequence) <= receiverSequence
        invariant forwardRows
               == old(forwardRows) + if isProcessor then Range(old(receiverSequence), receiverSequence) else []
      {
        assert puts[..i + 1][..i] == puts[..i];
        ghost var before, rows := receiverSequence, forwardRows;
        p' := HandlePut(puts[i], p', ReceiveAll(sh, puts[..i]));
        RangeJoins(old(receiverSequence), before, receiverSequence);
      }
      assert puts[..|puts|] == puts;
    }

    /** A batch of entries: if it is applied, storage holds what the protocol holds after receiving all its rows one
        by one, and the processor is handed exactly the sequences of the rows let through; if it fails
        on the way, storage is as it was. */
    method Update(entries: seq<Entry>, fails: bool, ghost sh: Shard) returns (ok: bool, handed: seq<nat>)
      requires entries != [] && Valid() && Holds(stored, sh)
      modifies this
      ensures ok == !fails
      ensures ok ==> Valid() && Holds(stored, ReceiveAll(sh, AllPuts(entries)))
      ensures ok ==> stored.lastIndex == entries[|entries| - 1].index
      ensures ok ==> handed == if isProcessor then Range(old(receiverSequence), receiverSequence) else []
      ensures !ok ==> stored == old(stored)
    {
      hide ReceiveAll;
      var p := NOTHING;
      assert stored.dedup + p.dedup == stored.dedup && stored.rows + p.rows == stored.rows;
      NothingReceived(sh);
      for i := 0 to |entries|
        invariant stored == old(stored) && Ahead(p, ReceiveAll(sh, AllPuts(entries[..i])))
        invariant old(receiverSequence) <= receiverSequence
        invariant forwardRows == if isProcessor then Range(old(receiverSequence), receiverSequence) else []
      {
        assert entries[..i + 1][..i] == entries[..i];
        ghost var before := receiverSequence;
        ghost var so := ReceiveAll(sh, AllPuts(entries[..i]));
        p := HandleForwardWrite(entries[i].puts, p, so);
        RangeJoins(old(receiverSequence), before, receiverSequence);
        ReceiveAllConcat(sh, AllPuts(entries[..i]), entries[i].puts);
      }
      assert entries[..|entries|] == entries;
      if fails {
        return false, [];
      }
      stored := Applied(stored, p, entries[|entries| - 1].index, receiverSequence);
      handed := forwardRows;
      forwardRows := [];
      return true, handed;
    }

    /** Opening after a crash at any moment, or recovering: the caches are read back from storage, and the machine is
        where the last batch that was applied has left it. */
    method Load(ghost sh: Shard) returns (lastIndex: nat)
      requires Holds(stored, sh)
      modifies this`dedupSequences, this`receiverSequence, this`forwardRows
      ensures Valid() && Holds(stored, sh) && lastIndex == stored.lastIndex
      ensures dedupSequences == sh.dedup && receiverSequence == |sh.log|
    {
      dedupSequences := stored.dedup;
      receiverSequence := stored.sequence;
      forwardRows := [];
      lastIndex := stored.lastIndex;
    }
  }

  lemma Screened(sh: Shard, f: Forward)
    requires IsDuplicate(sh.dedup, f)
    ensures Receive(sh, f) == sh
  {
  }

  lemma NothingReceived(sh: Shard)
    ensures ReceiveAll(sh, AllPuts([])) == sh
  {
  }

  lemma {:induction false} RangeJoins(a: nat, b: nat, c: nat)
    requires a <= b <= c
    ensures Range(a, b) + Range(b, c) == Range(a, c)
  {
    if b < c {
      RangeJoins(a, b, c - 1);
    }
  }
}
