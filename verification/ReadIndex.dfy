/** Linearizable reads by the ReadIndex protocol (section 6.4 of Ongaro's Raft thesis), on the side of
    the host: reads wait in a queue, are grouped under a context, and complete once the index confirmed
    for their context has been applied. Each step is one critical section; the steps interleave. */
module ReadIndex {
  import opened Bytes

  /** A context: a random number and the tick after which an empty batch may go. */
  datatype Ctx = Ctx(low: U64, high: U64)

  datatype Notice = Done(ctx: Ctx, index: U64, applied: U64, tick: U64) | TimedOut(tick: U64) | Dropped | Terminated

  /** Where a read is: in the queue, in the step worker's hands, in a slot of a batch, or out. */
  datatype Home = InQueue(i: nat) | InHand(i: nat) | InSlot(ctx: Ctx, i: nat) | Notified | Discarded

  /** A read and its history: the context it was added under and what its channel was sent. */
  datatype Read = Read(deadline: U64, home: Home, ctx: Option<Ctx>, notices: seq<Notice>)

  datatype Batch = Batch(index: U64, slots: seq<Option<nat>>)

  datatype System = System(requests: map<nat, Read>, queue: seq<nat>, hand: Option<seq<nat>>, batches: map<Ctx, Batch>,
                           used: set<Ctx>, confirmed: set<(Ctx, U64)>, stopped: bool, drained: bool, lastGc: U64,
                           clock: U64)

  function Send(r: Read, n: Notice): Read {
    r.(notices := r.notices + [n], home := Notified)
  }

  // ---- The critical sections ----------------------------------------------------------------------

  predicate Ripe(b: Batch, applied: U64) {
    0 < b.index <= applied
  }

  /** What a read in a ripe batch is told. */
  function Outcome(r: Read, c: Ctx, b: Batch, applied: U64, now: U64): Notice {
    if r.deadline > now then Done(c, b.index, applied, now) else TimedOut(now)
  }

  predicate Completes(batches: map<Ctx, Batch>, r: Read, applied: U64) {
    r.home.InSlot? && r.home.ctx in batches && Ripe(batches[r.home.ctx], applied)
  }

  /** The first half of applied: every ripe batch is told and removed. */
  function CompleteRipe(st: System, applied: U64, now: U64): System {
    st.(requests := map x | x in st.requests ::
          var r := st.requests[x];
          if Completes(st.batches, r, applied)
            then Send(r, Outcome(r, r.home.ctx, st.batches[r.home.ctx], applied, now)) else r,
        batches := map c | c in st.batches && !Ripe(st.batches[c], applied) :: st.batches[c])
  }

  predicate Expires(r: Read, now: U64) {
    r.home.InSlot? && r.deadline < now
  }

  function Clear(requests: map<nat, Read>, slots: seq<Option<nat>>, now: U64): (s: seq<Option<nat>>)
    ensures |s| == |slots|
  {
    seq(|slots|, i requires 0 <= i < |slots| =>
      if slots[i].Some? && slots[i].value in requests && requests[slots[i].value].deadline < now then None
        else slots[i])
  }

  predicate Empty(slots: seq<Option<nat>>) {
    forall i :: 0 <= i < |slots| ==> slots[i].None?
  }

  /** gc: expired reads are told and their slots cleared; an empty batch goes once its context is old. */
  function CollectExpired(st: System, now: U64): System {
    st.(requests := map x | x in st.requests ::
      if Expires(st.requests[x], now) then Send(st.requests[x], TimedOut(now)) else st.requests[x],
        batches := map c | c in st.batches && !(c.high < now && Empty(Clear(st.requests, st.batches[c].slots, now))) ::
          Batch(st.batches[c].index, Clear(st.requests, st.batches[c].slots, now)))
  }

  function Applied(st: System, applied: U64, gcTick: U64): System {
    if st.stopped || st.batches == map[] then st
    else
      var st1 := CompleteRipe(st, applied, st.clock);
      if (st.clock - st.lastGc) % TWO_64 < gcTick then st1 else CollectExpired(st1, st.clock).(lastGc := st.clock)
  }

  function DropBatch(st: System, c: Ctx): System {
    if st.stopped || c !in st.batches then st
    else
      st.(requests := map x | x in st.requests ::
            if st.requests[x].home.InSlot? && st.requests[x].home.ctx == c then Send(st.requests[x], Dropped)
              else st.requests[x],
          batches := st.batches - {c})
  }

  /** add copies the requests into the slots of a new batch, unless the table is closed. */
  function AddBatch(st: System, c: Ctx): System
    requires st.hand.Some?
  {
    if st.stopped then
      st.(hand := None, requests := map x | x in st.requests ::
        if st.requests[x].home.InHand? then st.requests[x].(home := Discarded) else st.requests[x])
    else
      st.(hand := None, used := st.used + {c},
          batches := st.batches[c := Batch(0,
            seq(|st.hand.value|, i requires 0 <= i < |st.hand.value| => Some(st.hand.value[i])))],
          requests := map x | x in st.requests ::
            if st.requests[x].home.InHand?
              then st.requests[x].(home := InSlot(c, st.requests[x].home.i), ctx := Some(c)) else st.requests[x])
  }

  function Confirm(st: System, c: Ctx, index: U64): System {
    st.(confirmed := st.confirmed + {(c, index)},
        batches := if c in st.batches then st.batches[c := st.batches[c].(index := index)] else st.batches)
  }

  // ---- Steps --------------------------------------------------------------------------------------

  datatype Step =
    | Tick(tick: U64)
    | Enqueue(read: nat, timeout: U64)
    | Grab
    | Add(ctx: Ctx)
    | AddReady(ctx: Ctx, index: U64)
    | DroppedCtx(ctx: Ctx)
    | AppliedIndex(applied: U64, gcTick: U64)
    | Close
    | Drain

  /** Contexts are never drawn twice and the table is closed once, after which the queue takes nothing. */
  predicate Enabled(st: System, step: Step) {
    match step
    case Enqueue(x, timeout) => x !in st.requests && timeout > 0 && !st.drained
    case Grab => st.hand.None?
    case Add(c) => st.hand.Some? && c !in st.used
    case Close => !st.stopped
    case Drain => st.stopped && !st.drained
    case _ => true
  }

  function Next(st: System, step: Step): System
    requires Enabled(st, step)
  {
    match step
    case Tick(tick) => st.(clock := tick)
    case Enqueue(x, timeout) =>
      st.(queue := st.queue + [x],
          requests := st.requests[x := Read((st.clock + timeout) % TWO_64, InQueue(|st.queue|), None, [])])
    case Grab =>
      st.(queue := [], hand := Some(st.queue),
          requests := map x | x in st.requests ::
            if st.requests[x].home.InQueue? then st.requests[x].(home := InHand(st.requests[x].home.i))
              else st.requests[x])
    case Add(c) => AddBatch(st, c)
    case AddReady(c, index) => Confirm(st, c, index)
    case DroppedCtx(c) => DropBatch(st, c)
    case AppliedIndex(applied, gcTick) => Applied(st, applied, gcTick)
    case Close => st.(stopped := true)
    case Drain =>
      st.(drained := true, queue := [],
          requests := map x | x in st.requests ::
            if st.requests[x].home.InQueue? || st.requests[x].home.InSlot? then Send(st.requests[x], Terminated)
              else st.requests[x])
  }

  const INITIAL: System := System(map[], [], None, map[], {}, {}, false, false, 0, 0)

  function Run(steps: seq<Step>): Option<System> {
    if steps == [] then Some(INITIAL)
    else
      var before := Run(steps[..|steps| - 1]);
      if before.Some? && Enabled(before.value, steps[|steps| - 1])
      then Some(Next(before.value, steps[|steps| - 1])) else None
  }

  // ---- The invariant ------------------------------------------------------------------------------

  /** Every place holds the read that says it is there. */
  predicate Placed(st: System, x: nat)
    requires x in st.requests
  {
    match st.requests[x].home
    case InQueue(i) => i < |st.queue| && st.queue[i] == x
    case InHand(i) => st.hand.Some? && i < |st.hand.value| && st.hand.value[i] == x
    case InSlot(c, i) => c in st.batches && i < |st.batches[c].slots| && st.batches[c].slots[i] == Some(x)
    case Notified => true
    case Discarded => st.stopped
  }

  /** And no place holds a read that is elsewhere. */
  predicate Linked(st: System) {
    && (forall x :: x in st.requests ==> Placed(st, x))
    && (forall i :: 0 <= i < |st.queue| ==> st.queue[i] in st.requests && st.requests[st.queue[i]].home == InQueue(i))
    && (st.hand.Some? ==> forall i :: 0 <= i < |st.hand.value| ==>
          st.hand.value[i] in st.requests && st.requests[st.hand.value[i]].home == InHand(i))
    && (!st.drained ==> forall c, i ::
      c in st.batches && 0 <= i < |st.batches[c].slots| && st.batches[c].slots[i].Some? ==>
          var x := st.batches[c].slots[i].value;
          x in st.requests && st.requests[x].home == InSlot(c, i))
    && (st.drained ==> st.stopped)
  }

  /** A completion needs the confirmed index of the read's own context, applied, before the deadline. */
  predicate Justified(st: System, r: Read, n: Notice) {
    match n
    case Done(c, index, applied, tick) =>
      r.ctx == Some(c) && (c, index) in st.confirmed && 0 < index <= applied && tick < r.deadline
    case TimedOut(tick) => r.deadline <= tick
    case Dropped => r.ctx.Some?
    case Terminated => st.stopped
  }

  predicate ReadOk(st: System, r: Read) {
    && |r.notices| <= 1
    && (r.notices != [] <==> r.home == Notified)
    && (r.notices != [] ==> Justified(st, r, r.notices[0]))
    && (r.home.InSlot? ==> r.ctx == Some(r.home.ctx))
  }

  predicate Confirmed(st: System) {
    && (forall c :: c in st.batches && st.batches[c].index > 0 ==> (c, st.batches[c].index) in st.confirmed)
    && st.batches.Keys <= st.used
  }

  predicate Inv(st: System) {
    Linked(st) && Confirmed(st) && forall x :: x in st.requests ==> ReadOk(st, st.requests[x])
  }

  lemma CompleteInv(st: System, applied: U64, now: U64)
    requires Inv(st) && !st.stopped
    ensures Inv(CompleteRipe(st, applied, now))
  {
    var st' := CompleteRipe(st, applied, now);
    forall x | x in st'.requests ensures Placed(st', x) && ReadOk(st', st'.requests[x]) {
      assert Placed(st, x) && ReadOk(st, st.requests[x]);
    }
  }

  lemma CollectInv(st: System, now: U64)
    requires Inv(st) && !st.stopped
    ensures Inv(CollectExpired(st, now))
  {
    var st' := CollectExpired(st, now);
    forall x | x in st'.requests ensures Placed(st', x) && ReadOk(st', st'.requests[x]) {
      assert Placed(st, x) && ReadOk(st, st.requests[x]);
      if !Expires(st.requests[x], now) && st.requests[x].home.InSlot? {
        var c, i := st.requests[x].home.ctx, st.requests[x].home.i;
        assert Clear(st.requests, st.batches[c].slots, now)[i] == Some(x);
      }
    }
  }

  lemma DropInv(st: System, c: Ctx)
    requires Inv(st)
    ensures Inv(DropBatch(st, c))
  {
    var st' := DropBatch(st, c);
    forall x | x in st'.requests ensures Placed(st', x) && ReadOk(st', st'.requests[x]) {
      assert Placed(st, x) && ReadOk(st, st.requests[x]);
    }
  }

  lemma AddInv(st: System, c: Ctx)
    requires Inv(st) && st.hand.Some? && c !in st.used
    ensures Inv(AddBatch(st, c))
  {
    var st' := AddBatch(st, c);
    forall x | x in st'.requests ensures Placed(st', x) && ReadOk(st', st'.requests[x]) {
      assert Placed(st, x) && ReadOk(st, st.requests[x]);
    }
  }

  lemma ConfirmInv(st: System, c: Ctx, index: U64)
    requires Inv(st)
    ensures Inv(Confirm(st, c, index))
  {
    var st' := Confirm(st, c, index);
    forall x | x in st'.requests ensures Placed(st', x) && ReadOk(st', st'.requests[x]) {
      assert Placed(st, x) && ReadOk(st, st.requests[x]);
    }
  }

  lemma QueueInv(st: System, step: Step)
    requires Inv(st) && Enabled(st, step) && (step.Enqueue? || step.Grab? || step.Close? || step.Drain? || step.Tick?)
    ensures Inv(Next(st, step))
  {
    var st' := Next(st, step);
    forall x | x in st'.requests ensures Placed(st', x) && ReadOk(st', st'.requests[x]) {
      assert x in st.requests ==> Placed(st, x) && ReadOk(st, st.requests[x]);
    }
  }

  lemma StepInv(st: System, step: Step)
    requires Inv(st) && Enabled(st, step)
    ensures Inv(Next(st, step))
  {
    hide Inv;
    match step
    case Add(c) => AddInv(st, c);
    case AddReady(c, index) => ConfirmInv(st, c, index);
    case DroppedCtx(c) => DropInv(st, c);
    case AppliedIndex(applied, gcTick) =>
      if !st.stopped {
        CompleteInv(st, applied, st.clock);
        CollectInv(CompleteRipe(st, applied, st.clock), st.clock);
        SameInv(CollectExpired(CompleteRipe(st, applied, st.clock), st.clock), st.clock);
      }
    case Tick(_) => QueueInv(st, step);
    case Enqueue(_, _) => QueueInv(st, step);
    case Grab => QueueInv(st, step);
    case Close => QueueInv(st, step);
    case Drain => QueueInv(st, step);
  }

  lemma SameInv(st: System, now: U64)
    requires Inv(st)
    ensures Inv(st.(lastGc := now))
  {
    var st' := st.(lastGc := now);
    forall x | x in st'.requests ensures Placed(st', x) && ReadOk(st', st'.requests[x]) {
      assert Placed(st, x) && ReadOk(st, st.requests[x]);
    }
  }

  lemma {:induction false} RunInv(steps: seq<Step>)
    requires Run(steps).Some?
    ensures Inv(Run(steps).value)
  {
    hide Inv, Enabled, Next;
    if steps == [] {
      InitialInv();
    } else {
      RunInv(steps[..|steps| - 1]);
      StepInv(Run(steps[..|steps| - 1]).value, steps[|steps| - 1]);
    }
  }

  lemma InitialInv()
    ensures Inv(INITIAL)
  {
  }

  /** Over every interleaving: a read is notified at most once; it is completed only if the index confirmed
      for the context it was added under is not zero and has been applied, before its deadline; and until
      it is notified it is in exactly one place, unless the table was closed while the read was in the
      step worker's hands. */
  lemma {:induction false} ReadsAreSafe(steps: seq<Step>, x: nat)
    requires Run(steps).Some? && x in Run(steps).value.requests
    ensures var st := Run(steps).value;
            var r := st.requests[x];
            && |r.notices| <= 1
            && (r.notices != [] ==> Justified(st, r, r.notices[0]))
            && (r.notices == [] && !st.stopped ==> Placed(st, x) && !r.home.Notified? && !r.home.Discarded?)
  {
    RunInv(steps);
    var st := Run(steps).value;
    assert ReadOk(st, st.requests[x]) && Placed(st, x);
  }

  /** No read is in two slots. */
  lemma {:induction false} OneSlot(steps: seq<Step>, c: Ctx, i: nat, d: Ctx, j: nat)
    requires Run(steps).Some? && !Run(steps).value.drained
    requires var b := Run(steps).value.batches;
             c in b && d in b && i < |b[c].slots| && j < |b[d].slots| && b[c].slots[i].Some?
               && b[c].slots[i] == b[d].slots[j]
    ensures c == d && i == j
  {
    RunInv(steps);
  }

  /** A batch's slots and the reads that say they are in them. */
  predicate SlotsOf(requests: map<nat, Read>, c: Ctx, slots: seq<Option<nat>>) {
    && (forall i :: 0 <= i < |slots| && slots[i].Some? ==>
          slots[i].value in requests && requests[slots[i].value].home == InSlot(c, i))
    && (forall x :: x in requests && requests[x].home.InSlot? && requests[x].home.ctx == c ==>
          requests[x].home.i < |slots| && slots[requests[x].home.i] == Some(x))
  }

  lemma LinkedSlots(st: System, c: Ctx)
    requires Linked(st) && !st.drained && c in st.batches
    ensures SlotsOf(st.requests, c, st.batches[c].slots)
  {
    forall x | x in st.requests && st.requests[x].home.InSlot? && st.requests[x].home.ctx == c
      ensures st.requests[x].home.i < |st.batches[c].slots| && st.batches[c].slots[st.requests[x].home.i] == Some(x)
    {
      assert Placed(st, x);
    }
  }

  // ---- The table in place -------------------------------------------------------------------------

  class PendingReadIndex {
    var requests: map<nat, Read>
    var batches: map<Ctx, Batch>
    var stopped: bool
    var lastGc: U64
    const gcTick: U64

    /** The table holds this state's requests and batches. */
    ghost predicate Holds(st: System)
      reads this
    {
      requests == st.requests && batches == st.batches && stopped == st.stopped && lastGc == st.lastGc
    }

    method Notify(x: nat, n: Notice)
      requires x in requests
      modifies this`requests
      ensures requests == old(requests)[x := Send(old(requests)[x], n)]
    {
      requests := requests[x := Send(requests[x], n)];
    }

    /** The inner loop of applied: the reads of one ripe batch. */
    method TellBatch(c: Ctx, applied: U64, now: U64, ghost st: System)
      requires c in st.batches && c in batches && st.batches[c] == batches[c]
        && SlotsOf(st.requests, c, st.batches[c].slots)
      requires requests.Keys == st.requests.Keys
      requires forall x :: x in st.requests && st.requests[x].home.InSlot? && st.requests[x].home.ctx == c ==>
        requests[x] == st.requests[x]
      modifies this`requests
      ensures requests.Keys == st.requests.Keys
      ensures forall x :: x in st.requests ==>
                requests[x] == if st.requests[x].home.InSlot? && st.requests[x].home.ctx == c
                               then Send(st.requests[x], Outcome(st.requests[x], c, batches[c], applied, now))
                               else old(requests)[x]
    {
      var b := batches[c];
      for i := 0 to |b.slots|
        invariant requests.Keys == st.requests.Keys
        invariant forall x :: x in st.requests ==>
                    requests[x] == if st.requests[x].home.InSlot? && st.requests[x].home.ctx == c
                                      && st.requests[x].home.i < i
                                   then Send(st.requests[x], Outcome(st.requests[x], c, b, applied, now))
                                   else old(requests)[x]
      {
        if b.slots[i].Some? {
          var x := b.slots[i].value;
          assert st.requests[x].home == InSlot(c, i);
          Notify(x, if requests[x].deadline > now then Done(c, b.index, applied, now) else TimedOut(now));
        }
      }
    }

    /** The loops of dropped and close: every read of a batch is sent the same notice. */
    method TellSlots(c: Ctx, n: Notice, ghost st: System)
      requires c in st.batches && c in batches && st.batches[c] == batches[c]
        && SlotsOf(st.requests, c, st.batches[c].slots)
      requires requests.Keys == st.requests.Keys
      requires forall x :: x in st.requests && st.requests[x].home.InSlot? && st.requests[x].home.ctx == c ==>
        requests[x] == st.requests[x]
      modifies this`requests
      ensures requests.Keys == st.requests.Keys
      ensures forall x :: x in st.requests ==>
                requests[x] == if st.requests[x].home.InSlot? && st.requests[x].home.ctx == c
                  then Send(st.requests[x], n) else old(requests)[x]
    {
      hide Send;
      var b := batches[c];
      for i := 0 to |b.slots|
        invariant requests.Keys == st.requests.Keys
        invariant forall x :: x in st.requests ==>
                    requests[x] == if st.requests[x].home.InSlot? && st.requests[x].home.ctx == c
                                      && st.requests[x].home.i < i
                                   then Send(st.requests[x], n) else old(requests)[x]
      {
        if b.slots[i].Some? {
          assert st.requests[b.slots[i].value].home == InSlot(c, i);
          Notify(b.slots[i].value, n);
        }
      }
    }

    /** dropped: a closed table is left alone. */
    method DropCtx(c: Ctx, ghost st: System)
      requires Linked(st) && (st.drained ==> st.stopped) && Holds(st)
      modifies this`requests, this`batches
      ensures requests == DropBatch(st, c).requests && batches == DropBatch(st, c).batches
    {
      hide Linked, Send;
      if stopped {
        return;
      }
      if c in batches {
        LinkedSlots(st, c);
        TellSlots(c, Dropped, st);
        batches := batches - {c};
      }
    }

    /** addReady: the confirmed indexes of the contexts that still have a batch. */
    method AddReady(confirmed: seq<(Ctx, U64)>, ghost st: System)
      requires Holds(st)
      modifies this`batches
      ensures batches == ConfirmAll(st, confirmed).batches
    {
      for i := 0 to |confirmed|
        invariant batches == ConfirmAll(st, confirmed[..i]).batches
      {
        assert confirmed[..i + 1][..i] == confirmed[..i];
        if confirmed[i].0 in batches {
          batches := batches[confirmed[i].0 := batches[confirmed[i].0].(index := confirmed[i].1)];
        }
      }
      assert confirmed[..|confirmed|] == confirmed;
    }

    /** close: the reads in the queue and in all batches are terminated; the batches stay. */
    method TerminateAll(queue: seq<nat>, ghost st: System)
      requires Linked(st) && st.stopped && !st.drained && Holds(st) && queue == st.queue
      modifies this`requests
      ensures requests == Next(st, Drain).requests
    {
      TerminateQueue(queue, st);
      hide Linked, Send;
      var todo := batches.Keys;
      SlotsInBatches(st);
      while todo != {}
        invariant todo <= st.batches.Keys && requests.Keys == st.requests.Keys
        invariant forall x :: x in st.requests ==>
                    requests[x] == if st.requests[x].home.InQueue?
                                      || (st.requests[x].home.InSlot? && st.requests[x].home.ctx !in todo)
                                   then Send(st.requests[x], Terminated) else st.requests[x]
        decreases |todo|
      {
        var c :| c in todo;
        LinkedSlots(st, c);
        TellSlots(c, Terminated, st);
        todo := todo - {c};
      }
    }

    method TerminateQueue(queue: seq<nat>, ghost st: System)
      requires Linked(st) && requests == st.requests && queue == st.queue
      modifies this`requests
      ensures requests.Keys == st.requests.Keys
      ensures forall x :: x in st.requests ==>
                requests[x] == if st.requests[x].home.InQueue? then Send(st.requests[x], Terminated) else st.requests[x]
    {
      hide Send;
      for i := 0 to |queue|
        invariant requests.Keys == st.requests.Keys
        invariant forall x :: x in st.requests ==>
                    requests[x] == if st.requests[x].home.InQueue? && st.requests[x].home.i < i
                                   then Send(st.requests[x], Terminated) else st.requests[x]
      {
        assert st.requests[queue[i]].home == InQueue(i);
        Notify(queue[i], Terminated);
      }
      forall x | x in st.requests && st.requests[x].home.InQueue? ensures st.requests[x].home.i < |queue| {
        assert Placed(st, x);
      }
    }

    /** The outer loop of applied deletes the batches it has told. */
    method TellRipe(applied: U64, now: U64, ghost st: System)
      requires Linked(st) && !st.drained && Holds(st)
      modifies this`requests, this`batches
      ensures requests == CompleteRipe(st, applied, now).requests && batches == CompleteRipe(st, applied, now).batches
      ensures forall c :: c in batches <==> c in st.batches && !(0 < st.batches[c].index <= applied)
    {
      hide Linked, Told, Untold;
      var todo := batches.Keys;
      NothingTold(st, applied, now);
      while todo != {}
        invariant todo <= st.batches.Keys
        invariant requests == Told(st, applied, now, st.batches.Keys - todo) && batches == Untold(st, applied, todo)
        decreases |todo|
      {
        var c :| c in todo;
        ToldStep(st, applied, now, todo, c, requests);
        if 0 < batches[c].index <= applied {
          LinkedSlots(st, c);
          TellBatch(c, applied, now, st);
          batches := batches - {c};
        }
        todo := todo - {c};
      }
      AllTold(st, applied, now);
    }

    /** The first loop of gc, for one batch: expired reads are told and their slots set to nil. */
    method ExpireSlots(c: Ctx, now: U64, ghost st: System)
      requires c in st.batches && c in batches && st.batches[c] == batches[c]
        && SlotsOf(st.requests, c, st.batches[c].slots)
      requires requests.Keys == st.requests.Keys
      requires forall x :: x in st.requests && st.requests[x].home.InSlot? && st.requests[x].home.ctx == c ==>
        requests[x] == st.requests[x]
      modifies this`requests, this`batches
      ensures requests.Keys == st.requests.Keys
      ensures forall x :: x in st.requests ==>
                requests[x] == if Expires(st.requests[x], now) && st.requests[x].home.ctx == c
                               then Send(st.requests[x], TimedOut(now)) else old(requests)[x]
      ensures batches == old(batches)[c := Batch(st.batches[c].index, Clear(st.requests, st.batches[c].slots, now))]
    {
      hide Clear, Send;
      var b := batches[c];
      var slots := b.slots;
      for i := 0 to |b.slots|
        invariant requests.Keys == st.requests.Keys && |slots| == |b.slots| && batches == old(batches)
        invariant forall x :: x in st.requests ==>
                    requests[x] == if Expires(st.requests[x], now) && st.requests[x].home.ctx == c
                                      && st.requests[x].home.i < i
                                   then Send(st.requests[x], TimedOut(now)) else old(requests)[x]
        invariant forall k :: 0 <= k < |slots| ==>
          slots[k] == if k < i then Clear(st.requests, b.slots, now)[k] else b.slots[k]
      {
        ClearAt(st.requests, b.slots, now, i);
        if b.slots[i].Some? {
          var x := b.slots[i].value;
          assert st.requests[x].home == InSlot(c, i);
          if requests[x].deadline < now {
            Notify(x, TimedOut(now));
            slots := slots[i := None];
          }
        }
      }
      assert slots == Clear(st.requests, b.slots, now);
      batches := batches[c := b.(slots := slots)];
    }

    method ExpireAll(now: U64, ghost st: System)
      requires Linked(st) && !st.drained && Holds(st)
      modifies this`requests, this`batches
      ensures requests == CollectExpired(st, now).requests
      ensures batches == map c | c in st.batches ::
        Batch(st.batches[c].index, Clear(st.requests, st.batches[c].slots, now))
    {
      hide Linked, Expired, Cleared;
      var todo := batches.Keys;
      NothingExpired(st, now);
      while todo != {}
        invariant todo <= st.batches.Keys
        invariant requests == Expired(st, now, st.batches.Keys - todo) && batches == Cleared(st, now, todo)
        decreases |todo|
      {
        var c :| c in todo;
        ExpiredStep(st, now, todo, c, requests);
        LinkedSlots(st, c);
        ExpireSlots(c, now, st);
        todo := todo - {c};
      }
      AllExpired(st, now);
    }

    method AllNil(slots: seq<Option<nat>>) returns (empty: bool)
      ensures empty <==> Empty(slots)
    {
      for i := 0 to |slots|
        invariant forall k :: 0 <= k < i ==> slots[k].None?
      {
        if slots[i].Some? {
          return false;
        }
      }
      return true;
    }

    /** The second loop of gc. */
    method RemoveEmpty(now: U64)
      modifies this`batches
      ensures batches == map c | c in old(batches) && !(c.high < now && Empty(old(batches)[c].slots)) :: old(batches)[c]
    {
      hide Empty;
      ghost var before := batches;
      var todo := batches.Keys;
      while todo != {}
        invariant todo <= before.Keys
        invariant batches == map c | c in before && (c in todo || !(c.high < now && Empty(before[c].slots))) ::
          before[c]
        decreases |todo|
      {
        var c :| c in todo;
        if c.high < now {
          var empty := AllNil(batches[c].slots);
          if empty {
            batches := batches - {c};
          }
        }
        todo := todo - {c};
      }
    }

    method Gc(now: U64, ghost st: System)
      requires Linked(st) && !st.drained && Holds(st)
      modifies this`requests, this`batches
      ensures requests == CollectExpired(st, now).requests && batches == CollectExpired(st, now).batches
    {
      hide Linked, Clear, Empty;
      ExpireAll(now, st);
      RemoveEmpty(now);
    }

    /** applied: a table that is closed or empty is left alone. */
    method AppliedTo(applied: U64, now: U64, ghost st: System)
      requires Inv(st) && now == st.clock && Holds(st)
      modifies this`requests, this`batches, this`lastGc
      ensures requests == Applied(st, applied, gcTick).requests && batches == Applied(st, applied, gcTick).batches
      ensures lastGc == Applied(st, applied, gcTick).lastGc
      ensures !stopped ==> forall c :: c in batches ==> !(0 < batches[c].index <= applied)
    {
      hide ReadOk, Confirmed;
      if stopped || batches == map[] {
        return;
      }
      TellRipe(applied, now, st);
      if (now - lastGc) % TWO_64 < gcTick {
        return;
      }
      CompleteInv(st, applied, now);
      Gc(now, CompleteRipe(st, applied, now));
      lastGc := now;
    }
  }

  lemma ClearAt(requests: map<nat, Read>, slots: seq<Option<nat>>, now: U64, i: nat)
    requires i < |slots|
    ensures Clear(requests, slots, now)[i]
         == if slots[i].Some? && slots[i].value in requests && requests[slots[i].value].deadline < now then None
           else slots[i]
  {
  }

  // The loops half way.

  /** The reads once the batches of `done` have been told. */
  function Told(st: System, applied: U64, now: U64, done: set<Ctx>): map<nat, Read> {
    map x | x in st.requests ::
      var r := st.requests[x];
      if Completes(st.batches, r, applied) && r.home.ctx in done
      then Send(r, Outcome(r, r.home.ctx, st.batches[r.home.ctx], applied, now)) else r
  }

  function Untold(st: System, applied: U64, todo: set<Ctx>): map<Ctx, Batch> {
    map c | c in st.batches && (c in todo || !Ripe(st.batches[c], applied)) :: st.batches[c]
  }

  lemma NothingTold(st: System, applied: U64, now: U64)
    ensures Told(st, applied, now, st.batches.Keys - st.batches.Keys) == st.requests
    ensures Untold(st, applied, st.batches.Keys) == st.batches
  {
  }

  lemma AllTold(st: System, applied: U64, now: U64)
    ensures Told(st, applied, now, st.batches.Keys - {}) == CompleteRipe(st, applied, now).requests
    ensures Untold(st, applied, {}) == CompleteRipe(st, applied, now).batches
  {
  }

  lemma ToldStep(st: System, applied: U64, now: U64, todo: set<Ctx>, c: Ctx, requests: map<nat, Read>)
    requires c in todo && todo <= st.batches.Keys && requests == Told(st, applied, now, st.batches.Keys - todo)
    ensures c in Untold(st, applied, todo) && Untold(st, applied, todo)[c] == st.batches[c]
      && requests.Keys == st.requests.Keys
    ensures forall x :: x in st.requests && st.requests[x].home.InSlot? && st.requests[x].home.ctx == c ==>
      requests[x] == st.requests[x]
    ensures !Ripe(st.batches[c], applied) ==>
              Told(st, applied, now, st.batches.Keys - (todo - {c})) == requests
                && Untold(st, applied, todo - {c}) == Untold(st, applied, todo)
    ensures Ripe(st.batches[c], applied) ==> Untold(st, applied, todo - {c}) == Untold(st, applied, todo) - {c}
    ensures Ripe(st.batches[c], applied) ==> forall after: map<nat, Read> ::
              after.Keys == st.requests.Keys
              && (forall x :: x in st.requests ==>
                    after[x] == if st.requests[x].home.InSlot? && st.requests[x].home.ctx == c
                                then Send(st.requests[x], Outcome(st.requests[x], c, st.batches[c], applied, now))
                                else requests[x])
              ==> after == Told(st, applied, now, st.batches.Keys - (todo - {c}))
  {
    hide Send, Outcome;
  }

  /** The reads and batches once the batches of `done` have been cleared. */
  function Expired(st: System, now: U64, done: set<Ctx>): map<nat, Read> {
    map x | x in st.requests ::
      if Expires(st.requests[x], now) && st.requests[x].home.ctx in done then Send(st.requests[x], TimedOut(now))
        else st.requests[x]
  }

  function Cleared(st: System, now: U64, todo: set<Ctx>): map<Ctx, Batch> {
    map c | c in st.batches ::
      if c in todo then st.batches[c] else Batch(st.batches[c].index, Clear(st.requests, st.batches[c].slots, now))
  }

  lemma NothingExpired(st: System, now: U64)
    ensures Expired(st, now, st.batches.Keys - st.batches.Keys) == st.requests
    ensures Cleared(st, now, st.batches.Keys) == st.batches
  {
  }

  lemma AllExpired(st: System, now: U64)
    requires Linked(st)
    ensures Expired(st, now, st.batches.Keys - {}) == CollectExpired(st, now).requests
    ensures Cleared(st, now, {}) == map c | c in st.batches ::
      Batch(st.batches[c].index, Clear(st.requests, st.batches[c].slots, now))
  {
    hide Linked, Send, Clear;
    forall x | x in st.requests && st.requests[x].home.InSlot? ensures st.requests[x].home.ctx in st.batches {
      LinkedPlaces(st, x);
    }
  }

  lemma ExpiredStep(st: System, now: U64, todo: set<Ctx>, c: Ctx, requests: map<nat, Read>)
    requires c in todo && todo <= st.batches.Keys && requests == Expired(st, now, st.batches.Keys - todo)
    ensures c in Cleared(st, now, todo) && Cleared(st, now, todo)[c] == st.batches[c]
      && requests.Keys == st.requests.Keys
    ensures forall x :: x in st.requests && st.requests[x].home.InSlot? && st.requests[x].home.ctx == c ==>
      requests[x] == st.requests[x]
    ensures Cleared(st, now, todo - {c})
         == Cleared(st, now, todo)[c := Batch(st.batches[c].index, Clear(st.requests, st.batches[c].slots, now))]
    ensures forall after: map<nat, Read> ::
              after.Keys == st.requests.Keys
              && (forall x :: x in st.requests ==>
                    after[x] == if Expires(st.requests[x], now) && st.requests[x].home.ctx == c
                                then Send(st.requests[x], TimedOut(now)) else requests[x])
              ==> after == Expired(st, now, st.batches.Keys - (todo - {c}))
  {
    hide Send, Clear;
  }

  /** The fold of addReady over its list. */
  function ConfirmAll(st: System, confirmed: seq<(Ctx, U64)>): System {
    if confirmed == [] then st
    else
      var last := confirmed[|confirmed| - 1];
      Confirm(ConfirmAll(st, confirmed[..|confirmed| - 1]), last.0, last.1)
  }

  lemma SlotsInBatches(st: System)
    requires Linked(st)
    ensures forall x :: x in st.requests && st.requests[x].home.InSlot? ==> st.requests[x].home.ctx in st.batches
  {
    hide Linked;
    forall x | x in st.requests && st.requests[x].home.InSlot? ensures st.requests[x].home.ctx in st.batches {
      LinkedPlaces(st, x);
    }
  }

  lemma LinkedPlaces(st: System, x: nat)
    requires Linked(st) && x in st.requests && st.requests[x].home.InSlot?
    ensures st.requests[x].home.ctx in st.batches
  {
    assert Placed(st, x);
  }
}
