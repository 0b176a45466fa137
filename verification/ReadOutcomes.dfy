/** What reads are told, step by step: which notice each read gets, when, and on the grounds of which index and
    deadline, all of it told from the steps of the run. */
module ReadOutcomes {
  import opened Bytes
  import opened ReadIndex

  // ---- Told from the steps alone ----------------------------------------------------------------------

  /** The last tick. */
  function Clock(steps: seq<Step>): U64 {
    if steps == [] then 0
    else if steps[|steps| - 1].Tick? then steps[|steps| - 1].tick else Clock(steps[..|steps| - 1])
  }

  /** The deadline of a read: the tick at which it was queued, plus its timeout, in unsigned 64-bit arithmetic. */
  function Deadline(steps: seq<Step>, x: nat): U64 {
    if steps == [] then 0
    else
      var (before, last) := (steps[..|steps| - 1], steps[|steps| - 1]);
      if last.Enqueue? && last.read == x then (Clock(before) + last.timeout) % TWO_64 else Deadline(before, x)
  }

  /** The index confirmed for a context since a batch was added under it. */
  function Index(steps: seq<Step>, c: Ctx): U64 {
    if steps == [] then 0
    else
      var (before, last) := (steps[..|steps| - 1], steps[|steps| - 1]);
      if last == Add(c) then 0 else if last.AddReady? && last.ctx == c then last.index else Index(before, c)
  }

  ghost predicate Told(st: System, steps: seq<Step>) {
    && st.clock == Clock(steps) && (st.stopped <==> Close in steps) && (st.drained <==> Drain in steps)
    && (forall x :: x in st.requests ==> st.requests[x].deadline == Deadline(steps, x))
    && (forall c :: c in st.batches ==> st.batches[c].index == Index(steps, c))
  }

  lemma StepDeadline(st: System, steps: seq<Step>, step: Step, x: nat)
    requires Told(st, steps) && Enabled(st, step) && x in Next(st, step).requests
    ensures Next(st, step).requests[x].deadline == Deadline(steps + [step], x)
  {
    hide Clear, Ripe, Expires, Outcome, Clock, Index;
    assert (steps + [step])[..|steps|] == steps;
    assert x in st.requests || step == Enqueue(x, step.timeout);
  }

  lemma StepIndex(st: System, steps: seq<Step>, step: Step, c: Ctx)
    requires Inv(st) && Told(st, steps) && Enabled(st, step) && c in Next(st, step).batches
    ensures Next(st, step).batches[c].index == Index(steps + [step], c)
  {
    hide Linked, ReadOk, Clear, Ripe, Expires, Outcome, Clock, Deadline;
    assert (steps + [step])[..|steps|] == steps;
    assert c in st.batches || step == Add(c);
  }

  lemma StepFlags(st: System, steps: seq<Step>, step: Step)
    requires Told(st, steps) && Enabled(st, step)
    ensures var (st', steps') := (Next(st, step), steps + [step]);
            && st'.clock == Clock(steps') && (st'.stopped <==> Close in steps') && (st'.drained <==> Drain in steps')
  {
    FlagsAre(st, step);
    hide Next, Enabled, Deadline, Index;
    assert (steps + [step])[..|steps|] == steps;
  }

  lemma FlagsAre(st: System, step: Step)
    requires Enabled(st, step)
    ensures var st' := Next(st, step);
            && st'.clock == (if step.Tick? then step.tick else st.clock)
            && (st'.stopped <==> st.stopped || step == Close) && (st'.drained <==> st.drained || step == Drain)
  {
    hide Clear, Ripe, Expires, Outcome;
  }

  lemma StepTold(st: System, steps: seq<Step>, step: Step)
    requires Inv(st) && Told(st, steps) && Enabled(st, step)
    ensures Told(Next(st, step), steps + [step])
  {
    StepFlags(st, steps, step);
    hide *;
    var st' := Next(st, step);
    forall x | x in st'.requests ensures st'.requests[x].deadline == Deadline(steps + [step], x) {
      StepDeadline(st, steps, step, x);
    }
    forall c | c in st'.batches ensures st'.batches[c].index == Index(steps + [step], c) {
      StepIndex(st, steps, step, c);
    }
    Tells(st', steps + [step]);
  }

  lemma Tells(st: System, steps: seq<Step>)
    requires st.clock == Clock(steps) && (st.stopped <==> Close in steps) && (st.drained <==> Drain in steps)
    requires forall x :: x in st.requests ==> st.requests[x].deadline == Deadline(steps, x)
    requires forall c :: c in st.batches ==> st.batches[c].index == Index(steps, c)
    ensures Told(st, steps)
  {
  }

  /** In every run the clock, the deadline of each read, the index of each batch and whether the table is closed and
      drained are what the steps say. */
  lemma {:induction false} RunTold(steps: seq<Step>)
    requires Run(steps).Some?
    ensures Told(Run(steps).value, steps)
  {
    hide Enabled, Next, Inv;
    if steps != [] {
      RunTold(steps[..|steps| - 1]);
      RunInv(steps[..|steps| - 1]);
      StepTold(Run(steps[..|steps| - 1]).value, steps[..|steps| - 1], steps[|steps| - 1]);
      assert steps[..|steps| - 1] + [steps[|steps| - 1]] == steps;
    } else {
      NothingTold();
    }
  }

  lemma NothingTold()
    ensures Told(INITIAL, [])
  {
  }

  // ---- Notices ------------------------------------------------------------------------------------------

  /** The notices a step sends to a read. An applied index completes the reads of every batch whose index is not zero
      and has been applied, late ones with a timeout; a collection that is due times out the late reads of the
      other batches; a dropped context and a closed table end their reads. */
  function Notices(st: System, step: Step, x: nat): seq<Notice>
    requires x in st.requests
  {
    var r := st.requests[x];
    match step
    case AppliedIndex(applied, gcTick) =>
      if st.stopped || !r.home.InSlot? || r.home.ctx !in st.batches then []
      else
        var index := st.batches[r.home.ctx].index;
        if 0 < index && index <= applied
        then [if r.deadline > st.clock then Done(r.home.ctx, index, applied, st.clock) else TimedOut(st.clock)]
        else if (st.clock - st.lastGc) % TWO_64 >= gcTick && r.deadline < st.clock then [TimedOut(st.clock)]
        else []
    case DroppedCtx(c) => if !st.stopped && r.home.InSlot? && r.home.ctx == c then [Dropped] else []
    case Drain => if r.home.InQueue? || r.home.InSlot? then [Terminated] else []
    case _ => []
  }

  lemma AppliedNotices(st: System, applied: U64, gcTick: U64, x: nat)
    requires Inv(st) && x in st.requests
    ensures var st' := Next(st, AppliedIndex(applied, gcTick));
            && x in st'.requests
            && st'.requests[x].notices == st.requests[x].notices + Notices(st, AppliedIndex(applied, gcTick), x)
  {
    hide Confirmed, ReadOk, Clear;
    assert Placed(st, x);
    assert st.requests[x].notices + [] == st.requests[x].notices;
  }

  /** Every step tells every read exactly that. */
  lemma StepNotices(st: System, step: Step, x: nat)
    requires Inv(st) && Enabled(st, step) && x in st.requests
    ensures x in Next(st, step).requests
    ensures Next(st, step).requests[x].notices == st.requests[x].notices + Notices(st, step, x)
  {
    if step.AppliedIndex? {
      hide Inv, Next, Notices;
      AppliedNotices(st, step.applied, step.gcTick, x);
    } else {
      hide Confirmed, ReadOk, Applied, Placed;
      assert st.requests[x].notices + [] == st.requests[x].notices;
    }
  }

  /** After an index has been applied no batch is left that waits for it or an earlier one, and after a context has
      been dropped its batch is gone. */
  lemma NoneLeft(st: System, step: Step, c: Ctx)
    requires Enabled(st, step) && !st.stopped && c in Next(st, step).batches
    ensures step.AppliedIndex? ==> !(0 < Next(st, step).batches[c].index <= step.applied)
    ensures step != DroppedCtx(c)
  {
    hide Clear;
  }

  /** A collection is due once enough ticks have passed since the last one, in unsigned 64-bit arithmetic. It leaves no
      read that is late, and no empty batch whose context is old; and the next one counts from it. */
  lemma CollectionIsDone(st: System, applied: U64, gcTick: U64)
    requires Inv(st) && !st.stopped && st.batches != map[]
    ensures var (st', due) := (Next(st, AppliedIndex(applied, gcTick)), (st.clock - st.lastGc) % TWO_64 >= gcTick);
            && st'.lastGc == (if due then st.clock else st.lastGc)
            && (due ==> forall x :: x in st'.requests && st'.requests[x].home.InSlot? ==>
                  st.clock <= st'.requests[x].deadline)
            && (due ==> forall c :: c in st'.batches && c.high < st.clock ==>
                  exists i :: 0 <= i < |st'.batches[c].slots| && st'.batches[c].slots[i].Some?)
  {
    hide Linked, Confirmed, ReadOk;
    var st1 := CompleteRipe(st, applied, st.clock);
    var st' := Next(st, AppliedIndex(applied, gcTick));
    if (st.clock - st.lastGc) % TWO_64 >= gcTick {
      forall c | c in st'.batches && c.high < st.clock
        ensures exists i :: 0 <= i < |st'.batches[c].slots| && st'.batches[c].slots[i].Some?
      {
        assert !Empty(st'.batches[c].slots);
      }
    }
  }

  /** Over every run: what an applied index does to each read, from the deadlines and confirmed indexes that the steps
      say. A read that has been notified before, or is not in a batch, is told nothing. */
  lemma {:induction false} AppliedCompletes(steps: seq<Step>, applied: U64, gcTick: U64, x: nat, c: Ctx, i: nat)
    requires Run(steps).Some? && !Run(steps).value.stopped && x in Run(steps).value.requests
    requires Run(steps).value.requests[x].home == InSlot(c, i)
    ensures var st' := Next(Run(steps).value, AppliedIndex(applied, gcTick));
            && x in st'.requests
            && (0 < Index(steps, c) <= applied ==>
                  && c !in st'.batches
                  && st'.requests[x].notices
                     == [if Clock(steps) < Deadline(steps, x) then Done(c, Index(steps, c), applied, Clock(steps))
                         else TimedOut(Clock(steps))])
            && (!(0 < Index(steps, c) <= applied) && Clock(steps) <= Deadline(steps, x) ==>
                  c in st'.batches && st'.requests[x] == Run(steps).value.requests[x])
  {
    RunInv(steps);
    RunTold(steps);
    var (st, step) := (Run(steps).value, AppliedIndex(applied, gcTick));
    hide Run, Clock, Deadline, Index;
    assert ReadOk(st, st.requests[x]) && Placed(st, x);
    StepNotices(st, step, x);
    if c in Next(st, step).batches {
      NoneLeft(st, step, c);
    }
    StaysInSlot(st, applied, gcTick, x);
  }

  /** A read that is not late stays where it is, with its batch, until its index has been applied. */
  lemma StaysInSlot(st: System, applied: U64, gcTick: U64, x: nat)
    requires Inv(st) && x in st.requests && st.requests[x].home.InSlot?
    ensures var (st', c) := (Next(st, AppliedIndex(applied, gcTick)), st.requests[x].home.ctx);
            && x in st'.requests && c in st.batches
            && (c in st'.batches ==> st'.batches[c].index == st.batches[c].index)
            && (st.clock <= st.requests[x].deadline && !(0 < st.batches[c].index <= applied) ==>
                  c in st'.batches && st'.requests[x] == st.requests[x])
  {
    hide Confirmed, ReadOk;
    assert Placed(st, x);
    var (c, i) := (st.requests[x].home.ctx, st.requests[x].home.i);
    var st1 := CompleteRipe(st, applied, st.clock);
    if st.clock <= st.requests[x].deadline && !(0 < st.batches[c].index <= applied) {
      assert Clear(st1.requests, st.batches[c].slots, st.clock)[i] == Some(x);
    }
  }
}
