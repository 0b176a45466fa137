/** The double-buffered entry queue: producers fill one array while the consumer reads the other. It is
    a bounded first-in first-out queue whose reads hand out the buffer itself. */
module EntryQueue {
  import opened Bytes

  datatype Entry = Entry(id: nat, cmd: Option<nat>)

  const NO_ENTRY: Entry := Entry(0, None)

  // ---- The bounded queue it refines ---------------------------------------------------------------

  datatype Op = Add(entry: Entry) | Get(paused: bool) | Close

  datatype Fifo = Fifo(waiting: seq<Entry>, paused: bool, stopped: bool)

  /** What an add answers: whether the entry was taken, and whether the queue is closed. */
  predicate Accepts(f: Fifo, size: nat, ignorePause: bool) {
    (ignorePause || !f.paused) && |f.waiting| < size && !f.stopped
  }

  function After(f: Fifo, op: Op, size: nat, ignorePause: bool): Fifo {
    match op
    case Add(e) => if Accepts(f, size, ignorePause) then f.(waiting := f.waiting + [e]) else f
    case Get(paused) => f.(waiting := [], paused := paused)
    case Close => f.(stopped := true)
  }

  const EMPTY: Fifo := Fifo([], false, false)

  /** The queue after a history of operations, what was accepted and what the gets returned. */
  function Final(ops: seq<Op>, size: nat, ignorePause: bool): Fifo {
    if ops == [] then EMPTY else After(Final(ops[..|ops| - 1], size, ignorePause), ops[|ops| - 1], size, ignorePause)
  }

  function Accepted(ops: seq<Op>, size: nat, ignorePause: bool): seq<Entry> {
    if ops == [] then []
    else
      var op := ops[|ops| - 1];
      Accepted(ops[..|ops| - 1], size, ignorePause)
      + if op.Add? && Accepts(Final(ops[..|ops| - 1], size, ignorePause), size, ignorePause) then [op.entry] else []
  }

  function Returned(ops: seq<Op>, size: nat, ignorePause: bool): seq<Entry> {
    if ops == [] then []
    else Returned(ops[..|ops| - 1], size, ignorePause)
         + if ops[|ops| - 1].Get? then Final(ops[..|ops| - 1], size, ignorePause).waiting else []
  }

  /** In any history, what has been returned followed by what waits is what was accepted, in order. */
  lemma {:induction false} FirstInFirstOut(ops: seq<Op>, size: nat, ignorePause: bool)
    ensures Returned(ops, size, ignorePause) + Final(ops, size, ignorePause).waiting == Accepted(ops, size, ignorePause)
    ensures |Final(ops, size, ignorePause).waiting| <= size
  {
    if ops != [] {
      FirstInFirstOut(ops[..|ops| - 1], size, ignorePause);
    }
  }

  // What a history of operations says by itself.

  /** The last get asked for a pause. */
  predicate PausedAfter(ops: seq<Op>) {
    ops != [] &&
    if ops[|ops| - 1].Get? then ops[|ops| - 1].paused else PausedAfter(ops[..|ops| - 1])
  }

  predicate ClosedAfter(ops: seq<Op>) {
    exists i :: 0 <= i < |ops| && ops[i] == Close
  }

  /** An add is taken unless the queue is paused and heeds it, closed, or full. */
  predicate TakesAdd(ops: seq<Op>, size: nat, ignorePause: bool) {
    (ignorePause || !PausedAfter(ops)) && !ClosedAfter(ops) && TakenSinceGet(ops, size, ignorePause) < size
  }

  /** The number of adds taken since the last get. */
  function TakenSinceGet(ops: seq<Op>, size: nat, ignorePause: bool): nat
  {
    if ops == [] || ops[|ops| - 1].Get? then 0
    else
      var (before, last) := (ops[..|ops| - 1], ops[|ops| - 1]);
      var n := TakenSinceGet(before, size, ignorePause);
      if last.Add? && (ignorePause || !PausedAfter(before)) && !ClosedAfter(before) && n < size then n + 1 else n
  }

  lemma {:induction false} ClosedSnoc(ops: seq<Op>, op: Op)
    ensures ClosedAfter(ops + [op]) <==> ClosedAfter(ops) || op == Close
  {
    var ops' := ops + [op];
    if ClosedAfter(ops) {
      var i :| 0 <= i < |ops| && ops[i] == Close;
      assert ops'[i] == Close;
    } else if op == Close {
      assert ops'[|ops|] == Close;
    }
  }

  /** The queue is as the operations say: what it holds was taken since the last get, and it takes an add exactly when
      it is not paused, closed or full. */
  lemma {:induction false} QueueIs(ops: seq<Op>, size: nat, ignorePause: bool)
    ensures var f := Final(ops, size, ignorePause);
            && f.paused == PausedAfter(ops) && f.stopped == ClosedAfter(ops)
            && |f.waiting| == TakenSinceGet(ops, size, ignorePause)
            && (Accepts(f, size, ignorePause) <==> TakesAdd(ops, size, ignorePause))
  {
    hide ClosedAfter;
    if ops != [] {
      var (before, last) := (ops[..|ops| - 1], ops[|ops| - 1]);
      QueueIs(before, size, ignorePause);
      ClosedSnoc(before, last);
      assert before + [last] == ops;
    } else {
      NotClosed();
    }
  }

  lemma NotClosed()
    ensures !ClosedAfter([])
  {
  }

  /** So each add is accepted or refused for what came before it, and each get returns all that was taken since. */
  lemma OperationsDecide(ops: seq<Op>, e: Entry, paused: bool, size: nat, ignorePause: bool)
    ensures Accepted(ops + [Add(e)], size, ignorePause)
         == Accepted(ops, size, ignorePause) + if TakesAdd(ops, size, ignorePause) then [e] else []
    ensures Returned(ops + [Get(paused)], size, ignorePause) == Accepted(ops, size, ignorePause)
  {
    assert (ops + [Add(e)])[..|ops|] == ops && (ops + [Get(paused)])[..|ops|] == ops;
    QueueIs(ops, size, ignorePause);
    FirstInFirstOut(ops, size, ignorePause);
  }

  // ---- Two buffers --------------------------------------------------------------------------------

  class EntryQueue {
    const size: nat
    const lazyFreeCycle: nat
    const ignorePause: bool
    const left: array<Entry>
    const right: array<Entry>
    var leftInWrite: bool
    var stopped: bool
    var paused: bool
    var idx: nat
    var oldIdx: nat
    var cycle: U64
    /** The slice the last get returned. */
    ghost var lent: seq<Entry>

    function Target(): array<Entry>
      reads this
    {
      if leftInWrite then left else right
    }

    function Other(): array<Entry>
      reads this
    {
      if leftInWrite then right else left
    }

    /** No command is kept at or beyond n. */
    ghost predicate CleanFrom(a: array<Entry>, n: nat)
      reads a
    {
      forall i :: n <= i < a.Length ==> a[i].cmd.None?
    }

    /** The lent slice is still what was returned, and a queue that frees eagerly keeps no stale command. */
    ghost predicate Valid()
      reads this, left, right
    {
      && left != right && left.Length == size && right.Length == size
      && idx <= size && oldIdx <= size && Other()[..oldIdx] == lent
      && (lazyFreeCycle == 1 ==> CleanFrom(Target(), idx) && CleanFrom(Other(), oldIdx))
    }

    ghost function View(): Fifo
      requires Valid()
      reads this, left, right
    {
      Fifo(Target()[..idx], paused, stopped)
    }

    constructor (size: nat, lazyFreeCycle: nat, ignorePause: bool)
      ensures Valid() && View() == EMPTY && fresh(left) && fresh(right) && lent == []
      ensures this.size == size && this.lazyFreeCycle == lazyFreeCycle && this.ignorePause == ignorePause
    {
      this.size, this.lazyFreeCycle, this.ignorePause := size, lazyFreeCycle, ignorePause;
      left := new Entry[size](_ => NO_ENTRY);
      right := new Entry[size](_ => NO_ENTRY);
      leftInWrite, stopped, paused, idx, oldIdx, cycle, lent := false, false, false, 0, 0, 0, [];
    }

    method CloseQueue()
      requires Valid()
      modifies this`stopped
      ensures Valid() && View() == After(old(View()), Close, size, ignorePause)
    {
      stopped := true;
    }

    /** Adding leaves the lent slice alone. */
    method AddEntry(e: Entry) returns (added: bool, closed: bool)
      requires Valid()
      modifies this`idx, left, right
      ensures Valid() && View() == After(old(View()), Add(e), size, ignorePause)
      ensures added == Accepts(old(View()), size, ignorePause) && closed == stopped
      ensures Other() == old(Other()) && Other()[..] == old(Other()[..]) && lent == old(lent)
    {
      if (!ignorePause && paused) || idx >= size {
        return false, stopped;
      }
      if stopped {
        return false, true;
      }
      var w := Target();
      w[idx] := e;
      idx := idx + 1;
      return true, false;
    }

    /** Frees commands in the buffer that has become the write buffer, never in the lent one. */
    method Free()
      requires left != right && left.Length == size && right.Length == size && oldIdx <= size
      requires lazyFreeCycle == 1 ==> CleanFrom(Target(), oldIdx)
      modifies Target()
      ensures lazyFreeCycle == 1 ==> CleanFrom(Target(), 0)
      ensures forall i :: 0 <= i < size ==>
        var freed := if lazyFreeCycle == 0 then false
                     else if lazyFreeCycle == 1 then i < oldIdx else cycle % lazyFreeCycle == 0;
        Target()[i] == if freed then old(Target()[i]).(cmd := None) else old(Target()[i])
    {
      if lazyFreeCycle > 0 {
        var oldq := Target();
        var upTo := if lazyFreeCycle == 1 then oldIdx else if cycle % lazyFreeCycle == 0 then size else 0;
        for i := 0 to upTo
          invariant forall k :: 0 <= k < i ==> oldq[k] == old(oldq[k]).(cmd := None)
          invariant forall k :: i <= k < size ==> oldq[k] == old(oldq[k])
          invariant lazyFreeCycle == 1 ==> CleanFrom(oldq, oldIdx)
        {
          oldq[i] := oldq[i].(cmd := None);
        }
      }
    }

    /** Returns the entries accepted since the previous get, as a slice of the buffer. */
    method GetEntries(pause: bool) returns (slice: array<Entry>, n: nat)
      requires Valid()
      modifies this, left, right
      ensures Valid() && View() == After(old(View()), Get(pause), size, ignorePause)
      ensures n <= slice.Length && slice[..n] == old(View().waiting)
      ensures slice == Other() && n == oldIdx && lent == slice[..n]
    {
      paused := pause;
      cycle := (cycle + 1) % TWO_64;
      n := idx;
      idx := 0;
      slice := Target();
      leftInWrite := !leftInWrite;
      Free();
      oldIdx := n;
      lent := slice[..n];
    }
  }
}
