/** What becomes of proposals, told from the steps of the run: which request a key stands for, which notice each step
    sends it, and that a result can always be delivered in time. */
module ProposalOutcomes {
  import opened Bytes
  import opened Proposals

  // ---- Told from the steps alone ----------------------------------------------------------------------

  /** The last tick. */
  function Clock(steps: seq<Step>): U64 {
    if steps == [] then 0
    else if steps[|steps| - 1].Tick? then steps[|steps| - 1].tick else Clock(steps[..|steps| - 1])
  }

  /** The request inserted under a key; its deadline is the tick of the insertion plus the timeout, in unsigned 64-bit
      arithmetic. */
  function Inserted(steps: seq<Step>, key: U64): Option<Request> {
    if steps == [] then None
    else
      var (before, last) := (steps[..|steps| - 1], steps[|steps| - 1]);
      if last.Insert? && last.key == key
      then Some(Request(last.client, last.series, (Clock(before) + last.timeout) % TWO_64)) else Inserted(before, key)
  }

  /** The result the apply worker last took the key for. */
  function Result(steps: seq<Step>, key: U64): Option<Notice> {
    if steps == [] then None
    else
      var last := steps[|steps| - 1];
      if last.TakeForNotice? && last.key == key then Some(Notice(last.code, last.now))
      else Result(steps[..|steps| - 1], key)
  }

  ghost predicate Told(st: System, steps: seq<Step>) {
    && st.clock == Clock(steps)
    && (forall key :: key in st.requests <==> Inserted(steps, key).Some?)
    && (forall key :: key in st.requests ==> Inserted(steps, key) == Some(st.requests[key]))
    && (forall key :: key in st.flight ==> Result(steps, key) == Some(st.flight[key]))
  }

  lemma StepTold(st: System, steps: seq<Step>, step: Step)
    requires Told(st, steps) && Enabled(st, step)
    ensures Told(Next(st, step), steps + [step])
  {
    hide Collect, Close, Take;
    assert (steps + [step])[..|steps|] == steps;
  }

  /** In every run the clock, the request of each key and the results under way are what the steps say. */
  lemma {:induction false} RunTold(steps: seq<Step>)
    requires Run(steps).Some?
    ensures Told(Run(steps).value, steps)
  {
    hide Enabled, Next;
    if steps != [] {
      RunTold(steps[..|steps| - 1]);
      StepTold(Run(steps[..|steps| - 1]).value, steps[..|steps| - 1], steps[|steps| - 1]);
      assert steps[..|steps| - 1] + [steps[|steps| - 1]] == steps;
    }
  }

  /** The caller of a proposal has been told that its entry is queued. */
  predicate Queued(steps: seq<Step>, key: U64) {
    exists i :: 0 <= i < |steps| && steps[i] == Enqueue(key, true)
  }

  lemma StepQueued(st: System, steps: seq<Step>, step: Step, key: U64)
    requires Inv(st) && Enabled(st, step)
    requires key in st.calls && st.calls[key] == Accepted <==> Queued(steps, key)
    ensures var st' := Next(st, step); key in st'.calls && st'.calls[key] == Accepted <==> Queued(steps + [step], key)
  {
    hide Collect, Close, Take, KeyOk;
    var steps' := steps + [step];
    if Queued(steps, key) {
      var i :| 0 <= i < |steps| && steps[i] == Enqueue(key, true);
      assert steps'[i] == Enqueue(key, true);
    } else if step == Enqueue(key, true) {
      assert steps'[|steps|] == step;
    }
  }

  lemma {:induction false} RunQueued(steps: seq<Step>, key: U64)
    requires Run(steps).Some?
    ensures var st := Run(steps).value; key in st.calls && st.calls[key] == Accepted <==> Queued(steps, key)
  {
    hide Enabled, Next, Inv, Queued;
    if steps != [] {
      var (front, step) := (steps[..|steps| - 1], steps[|steps| - 1]);
      RunQueued(front, key);
      RunInv(front);
      StepQueued(Run(front).value, front, step, key);
      assert front + [step] == steps;
    } else {
      NothingQueued(key);
    }
  }

  lemma NothingQueued(key: U64)
    ensures !Queued([], key)
  {
  }

  /** In every run, a proposal whose caller was told that it is queued is pending, about to be notified, or has been
      notified. */
  lemma {:induction false} QueuedIsNeverLost(steps: seq<Step>, key: U64)
    requires Run(steps).Some? && Queued(steps, key)
    ensures var st := Run(steps).value;
            key in st.table.pending || key in st.flight || |Sent(st.table.notices, key)| == 1
  {
    RunInv(steps);
    RunQueued(steps, key);
    hide Run, Queued;
    assert KeyOk(Run(steps).value, key);
  }

  // ---- Notices ------------------------------------------------------------------------------------------

  /** The notices a step sends for a key: the result that was taken for it, a timeout when a collection is due and the
      deadline has passed, a termination when the table is closed. */
  function Notices(st: System, step: Step, key: U64): seq<Notice> {
    match step
    case Deliver(k) => if k == key && k in st.flight then [st.flight[k]] else []
    case Gc(now, gcTick) =>
      if !st.table.stopped && (now - st.table.lastGc) % TWO_64 >= gcTick
         && key in st.table.pending && st.table.pending[key].deadline < now
      then [Notice(TimedOut, now)] else []
    case CloseTable => if key in st.table.pending then [Notice(Terminated, st.clock)] else []
    case _ => []
  }

  lemma StepNotices(st: System, step: Step, key: U64)
    requires Enabled(st, step)
    ensures Sent(Next(st, step).table.notices, key) == Sent(st.table.notices, key) + Notices(st, step, key)
  {
    assert Sent(st.table.notices, key) + [] == Sent(st.table.notices, key);
  }

  /** A step takes a key out of the table exactly when it notifies it by a collection, takes it for a result, or
      withdraws it. */
  lemma StepPending(st: System, step: Step, key: U64)
    requires Enabled(st, step) && key in st.table.pending
    ensures key in Next(st, step).table.pending <==>
              !(step.Gc? && Notices(st, step, key) != [])
              && !(step.TakeForNotice? && step.key == key) && step != Withdraw(key)
  {
  }

  // ---- Results arrive -----------------------------------------------------------------------------------

  /** In every run, a pending proposal of an open table can be given its result at any tick up to its deadline,
      whichever it is, and is then sent exactly that; and only with its own client and series. */
  lemma {:induction false} ResultArrives(steps: seq<Step>, key: U64, client: U64, series: U64, now: U64, code: Code)
    requires Run(steps).Some? && !Run(steps).value.table.stopped && key in Run(steps).value.table.pending
    requires code == Completed || code == Rejected || code == Dropped
    ensures Inserted(steps, key).Some?
    ensures var (st, r) := (Run(steps).value, Inserted(steps, key).value);
            var take := TakeForNotice(key, client, series, now, code);
            && (Enabled(st, take) <==> now <= r.deadline && client == r.client && series == r.series)
            && (Enabled(st, take) ==>
                  && Enabled(Next(st, take), Deliver(key))
                  && Sent(Next(Next(st, take), Deliver(key)).table.notices, key) == [Notice(code, now)])
  {
    RunInv(steps);
    RunTold(steps);
    hide Run, Inserted, Result;
    var st := Run(steps).value;
    assert KeyOk(st, key);
  }

  /** In every run, a collection that is due sends a timeout to every pending proposal whose deadline has passed, and to
      no other. */
  lemma {:induction false} LateAreTimedOut(steps: seq<Step>, key: U64, now: U64, gcTick: U64)
    requires Run(steps).Some? && !Run(steps).value.table.stopped && key in Run(steps).value.table.pending
    requires (now - Run(steps).value.table.lastGc) % TWO_64 >= gcTick
    ensures Inserted(steps, key).Some?
    ensures var t := Next(Run(steps).value, Gc(now, gcTick)).table;
            && t.lastGc == now
            && (if Inserted(steps, key).value.deadline < now
                then key !in t.pending && Sent(t.notices, key) == [Notice(TimedOut, now)]
                else key in t.pending && Sent(t.notices, key) == [])
  {
    RunInv(steps);
    RunTold(steps);
    var st := Run(steps).value;
    hide Run, Inserted, Result;
    assert KeyOk(st, key);
    StepNotices(st, Gc(now, gcTick), key);
  }
}
