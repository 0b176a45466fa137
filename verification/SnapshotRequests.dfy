/** Every snapshot request is served: what the apply worker has asked for is, at every moment of every run, under way,
    taken back as completed, or dropped because its node has been stopped. */
module SnapshotRequests {
  import opened Bytes
  import opened SnapshotPipeline

  /** What can happen to requests: one is asked for, a completed one is taken, or a queued one is dropped. */
  datatype Deed = Asking | Taking | Dropping

  /** The apply worker asks for a request: the state machine returned a task of a kind that is not under way, or the
      node is not initialized. */
  predicate Asks(n: Node, task: Option<Kind>, canStream: bool, k: Kind) {
    || (n.phase == AtTask && task == Some(k) && k !in n.flags && Recover !in n.flags && (k == Stream ==> canStream))
    || (n.phase == AtUninitialized && !n.initialized && k == Recover)
  }

  /** The apply worker finds a request completed. */
  predicate Takes(n: Node, k: Kind) {
    LooksFor(n.phase) == Some(k) && k in n.flags && k in n.completed
  }

  /** The step does this for the node and kind. */
  predicate Does(st: System, step: Step, deed: Deed, r: Ref, k: Kind) {
    match deed
    case Asking =>
      step.ApplyStep? && step.node == r && r in st.nodes && Asks(st.nodes[r], step.task, step.canStream, k)
    case Taking => step.ApplyStep? && step.node == r && r in st.nodes && Takes(st.nodes[r], k)
    case Dropping =>
      step.Schedule? && FirstActionable(st.pool, 0).Some? && ScheduleWorker(st.pool, |st.workers|).Dropped?
      && st.pool.pending[FirstActionable(st.pool, 0).value] == Job(k, r)
  }

  function Times(count: nat, steps: seq<Step>, deed: Deed, r: Ref, k: Kind): nat {
    if steps == [] then 0
    else
      var before := Run(count, steps[..|steps| - 1]);
      Times(count, steps[..|steps| - 1], deed, r, k)
      + Bit(before.Some? && Does(before.value, steps[|steps| - 1], deed, r, k))
  }

  /** One step: tokens come from asking, and go by taking and dropping. */
  ghost predicate Accounts(st: System, step: Step, st': System, r: Ref, k: Kind) {
    && r in st.nodes && r in st'.nodes
    && Tokens(st', r, k) + Bit(Does(st, step, Taking, r, k)) + Bit(Does(st, step, Dropping, r, k))
       == Tokens(st, r, k) + Bit(Does(st, step, Asking, r, k))
    && Bit(k in st'.nodes[r].flags) + Bit(Does(st, step, Taking, r, k))
       == Bit(k in st.nodes[r].flags) + Bit(Does(st, step, Asking, r, k))
  }

  lemma ApplyFlags(n: Node, task: Option<Kind>, canStream: bool, k: Kind)
    requires NodeOk(n) && !Apply(n, task, canStream).panicked
    ensures Bit(k in Apply(n, task, canStream).node.flags) + Bit(Takes(n, k))
         == Bit(k in n.flags) + Bit(Asks(n, task, canStream, k))
  {
    hide Apply;
    if LooksFor(n.phase).Some? {
      CompletionIsTaken(n, task, canStream);
    } else {
      RequestIsPassedOn(n, task, canStream);
    }
  }

  /** The tokens of a kind that belong to a node, `elsewhere` counting those in the pool and with workers. */
  function NodeTokens(n: Node, k: Kind, elsewhere: nat): nat {
    Bit(k in n.ready) + elsewhere + Bit(k in n.completed)
  }

  lemma ApplyMoves(n: Node, task: Option<Kind>, canStream: bool, k: Kind, elsewhere: nat)
    requires NodeOk(n) && n.ready <= n.flags && (task == Some(Stream) ==> n.onDisk)
    requires NodeTokens(n, k, elsewhere) <= Bit(k in n.flags)
    ensures var n' := Apply(n, task, canStream).node;
            && NodeTokens(n', k, elsewhere) + Bit(Takes(n, k))
               == NodeTokens(n, k, elsewhere) + Bit(Asks(n, task, canStream, k))
            && Bit(k in n'.flags) + Bit(Takes(n, k)) == Bit(k in n.flags) + Bit(Asks(n, task, canStream, k))
  {
    hide Apply, NodeOk, Takes, Asks;
    ApplyOk(n, task, canStream);
    ApplyFlags(n, task, canStream, k);
    ApplyTokens(n, task, canStream, k, elsewhere);
  }

  lemma ApplyAccounts(st: System, step: Step, r: Ref, k: Kind)
    requires Inv(st) && Enabled(st, step) && step.ApplyStep? && r in st.nodes
    ensures Accounts(st, step, Next(st, step), r, k)
  {
    hide Apply, NodeOk, BooksMatch, LoadsMatch, Current, Known, Takes, Asks, Count;
    if r == step.node {
      forall h | h in st.nodes[r].ready ensures h in st.nodes[r].flags {
        assert Tokens(st, r, h) <= Bit(h in st.nodes[r].flags);
      }
      assert Tokens(st, r, k) <= Bit(k in st.nodes[r].flags);
      ApplyMoves(st.nodes[r], step.task, step.canStream, k,
        multiset(st.pool.pending)[Job(k, r)] + Count(st.workers, Carrying(Job(k, r))));
    }
  }

  // The other steps move tokens, and only dropping a job loses one.

  lemma QuietAccounts(st: System, step: Step, r: Ref, k: Kind)
    requires Enabled(st, step) && r in st.nodes
    requires step.StartCluster? || step.StopCluster? || step.ReadClusters? || step.AdoptClusters?
    ensures Accounts(st, step, Next(st, step), r, k)
  {
    hide Count, AdoptLoads, Asks, Takes;
    if step.StartCluster? {
      assert r.instance != step.ref.instance;
    }
  }

  lemma TakeAccounts(st: System, step: Step, r: Ref, k: Kind)
    requires Enabled(st, step) && step.TakeRequest? && r in st.nodes
    ensures Accounts(st, step, Next(st, step), r, k)
  {
    hide Count;
  }

  lemma DropAccounts(st: System, step: Step, r: Ref, k: Kind)
    requires Enabled(st, step) && step.Schedule? && ScheduleWorker(st.pool, |st.workers|).Dropped? && r in st.nodes
    ensures Accounts(st, step, Next(st, step), r, k)
  {
    hide Count;
    RemoveAtCounts(st.pool.pending, FirstActionable(st.pool, 0).value);
  }

  /** A step that neither asks, takes nor drops, and keeps the number of tokens and the flags. */
  lemma SameAccounts(st: System, step: Step, st': System, r: Ref, k: Kind)
    requires !step.ApplyStep? && (step.Schedule? ==> !ScheduleWorker(st.pool, |st.workers|).Dropped?)
    requires r in st.nodes && r in st'.nodes && st'.nodes[r].flags == st.nodes[r].flags
    requires Tokens(st', r, k) == Tokens(st, r, k)
    ensures Accounts(st, step, st', r, k)
  {
    hide Tokens, ScheduleWorker, Asks, Takes;
  }

  lemma SendAccounts(st: System, step: Step, r: Ref, k: Kind)
    requires Inv(st) && Enabled(st, step) && step.Schedule? && ScheduleWorker(st.pool, |st.workers|).Sent?
    requires r in st.nodes
    ensures Accounts(st, step, Next(st, step), r, k)
  {
    hide TokensMatch, LoadsMatch, BooksMatch, Count, NodesOk, Known, Current, ScheduleWorker, CanSchedule, Accounts;
    hide StartJob;
    SendFacts(st);
    var sent := ScheduleWorker(st.pool, |st.workers|);
    RemoveAtCounts(st.pool.pending, FirstActionable(st.pool, 0).value);
    CountUpdate(st.workers, sent.worker, Requested(sent.job), Carrying(Job(k, r)));
    SameAccounts(st, step, Next(st, step), r, k);
  }

  lemma WorkerAccounts(st: System, step: Step, r: Ref, k: Kind)
    requires Inv(st) && Enabled(st, step) && r in st.nodes && (step.WorkerBegins? || step.WorkerReturns?)
    ensures Accounts(st, step, Next(st, step), r, k)
  {
    hide Inv, NodeOk, Count, Accounts;
    var (st', w) := (Next(st, step), step.worker);
    CountUpdate(st.workers, w, st'.workers[w], Carrying(Job(k, r)));
    SameAccounts(st, step, st', r, k);
  }

  lemma NotifyAccounts(st: System, step: Step, r: Ref, k: Kind)
    requires Inv(st) && Enabled(st, step) && r in st.nodes && step.WorkerNotifies?
    ensures Accounts(st, step, Next(st, step), r, k)
  {
    hide Inv, NodeOk, Count, Accounts, TokensMatch;
    assert !Next(st, step).panicked by { NotifyTokens(st, step.worker); }
    var (st', w) := (Next(st, step), step.worker);
    CountUpdate(st.workers, w, st'.workers[w], Carrying(Job(k, r)));
    SameAccounts(st, step, st', r, k);
  }

  lemma CompletionAccounts(st: System, step: Step, r: Ref, k: Kind)
    requires Enabled(st, step) && r in st.nodes && step.Completion?
    ensures Accounts(st, step, Next(st, step), r, k)
  {
    hide NodeOk, Count, Accounts;
    var (st', w) := (Next(st, step), step.worker);
    CountUpdate(st.workers, w, st'.workers[w], Carrying(Job(k, r)));
    SameAccounts(st, step, st', r, k);
  }

  lemma StepAccounts(st: System, step: Step, r: Ref, k: Kind)
    requires Inv(st) && Enabled(st, step) && r in st.nodes
    ensures Accounts(st, step, Next(st, step), r, k)
  {
    hide Accounts, Inv, Next;
    match step
    case StartCluster(_, _, _) => QuietAccounts(st, step, r, k);
    case StopCluster(_) => QuietAccounts(st, step, r, k);
    case ApplyStep(_, _, _) => ApplyAccounts(st, step, r, k);
    case ReadClusters => QuietAccounts(st, step, r, k);
    case AdoptClusters => QuietAccounts(st, step, r, k);
    case TakeRequest(_, _) => TakeAccounts(st, step, r, k);
    case Schedule =>
      if ScheduleWorker(st.pool, |st.workers|).Dropped? {
        DropAccounts(st, step, r, k);
      } else {
        SendAccounts(st, step, r, k);
      }
    case WorkerBegins(_) => WorkerAccounts(st, step, r, k);
    case WorkerReturns(_) => WorkerAccounts(st, step, r, k);
    case WorkerNotifies(_) => NotifyAccounts(st, step, r, k);
    case Completion(_) => CompletionAccounts(st, step, r, k);
  }

  /** What is not there yet has not been asked for. */
  ghost predicate Served(count: nat, steps: seq<Step>, st: System, r: Ref, k: Kind) {
    if r in st.nodes then
      && Times(count, steps, Asking, r, k)
         == Times(count, steps, Taking, r, k) + Times(count, steps, Dropping, r, k) + Tokens(st, r, k)
      && Times(count, steps, Asking, r, k) == Times(count, steps, Taking, r, k) + Bit(k in st.nodes[r].flags)
    else
      && Times(count, steps, Asking, r, k) == 0
      && Times(count, steps, Taking, r, k) == 0 && Times(count, steps, Dropping, r, k) == 0
  }

  /** A node that comes to be has nothing asked for, and one that is not there is not acted on. */
  lemma NewNodeServed(st: System, step: Step, r: Ref, k: Kind)
    requires Inv(st) && Enabled(st, step) && r !in st.nodes
    ensures forall deed :: !Does(st, step, deed, r, k)
    ensures r in Next(st, step).nodes ==> Tokens(Next(st, step), r, k) == 0 && Next(st, step).nodes[r].flags == {}
  {
    hide Count, BooksMatch, LoadsMatch, Current, NodesOk, TokensMatch, Apply;
    NoStray(st, r, k);
  }

  lemma {:induction false} AllServed(count: nat, steps: seq<Step>, r: Ref, k: Kind)
    requires Run(count, steps).Some? && NeverOvertakes(count, steps)
    ensures Served(count, steps, Run(count, steps).value, r, k)
  {
    hide Enabled, Next, Overtakes, Does, Tokens, Inv;
    if steps != [] {
      var (front, step) := (steps[..|steps| - 1], steps[|steps| - 1]);
      AllServed(count, front, r, k);
      RunInv(count, front);
      var st := Run(count, front).value;
      if r in st.nodes {
        StepAccounts(st, step, r, k);
      } else {
        NewNodeServed(st, step, r, k);
      }
    }
  }

  /** Conservation of requests: in every run that does not overtake the pool, the requests of a kind that were asked for
      a node are those taken as completed, those dropped, and the one that may be under way; the flag is set
      exactly while one has been asked for and not been taken; and of a node that the host runs none is dropped. */
  lemma {:induction false} RequestsAreServed(count: nat, steps: seq<Step>, r: Ref, k: Kind)
    requires Run(count, steps).Some? && NeverOvertakes(count, steps) && r in Run(count, steps).value.nodes
    ensures var st := Run(count, steps).value;
            var (asked, taken, dropped) := (Times(count, steps, Asking, r, k), Times(count, steps, Taking, r, k),
                                            Times(count, steps, Dropping, r, k));
            && asked == taken + dropped + Tokens(st, r, k)
            && (k in st.nodes[r].flags <==> asked == taken + 1) && (k !in st.nodes[r].flags <==> asked == taken)
            && (Live(st, r) ==> dropped == 0)
  {
    AllServed(count, steps, r, k);
    RunInv(count, steps);
    hide Run, Times;
    var st := Run(count, steps).value;
    assert Tokens(st, r, k) <= Bit(k in st.nodes[r].flags);
  }

  // ---- Initialization -----------------------------------------------------------------------------------

  lemma StepInitialized(st: System, step: Step, r: Ref)
    requires Inv(st) && Enabled(st, step) && r in st.nodes
    ensures r in Next(st, step).nodes
    ensures Next(st, step).nodes[r].initialized <==> st.nodes[r].initialized || Does(st, step, Taking, r, Recover)
  {
    hide Apply, Count, TokensMatch, BooksMatch, LoadsMatch, Current, Known, Adopt, CompleteJob, ScheduleWorker;
    assert NodeOk(st.nodes[r]);
    if step.ApplyStep? {
      RecoveryInitializes(st.nodes[step.node], step.task, step.canStream);
    }
    if step.StartCluster? {
      assert r.instance != step.ref.instance;
    }
  }

  /** In every run that does not overtake the pool, a node is initialized exactly when a recovery has been taken for it,
      so nothing is applied to it and no snapshot of it is made before. */
  lemma {:induction false} InitializedByRecovery(count: nat, steps: seq<Step>, r: Ref)
    requires Run(count, steps).Some? && NeverOvertakes(count, steps) && r in Run(count, steps).value.nodes
    ensures Run(count, steps).value.nodes[r].initialized <==> Times(count, steps, Taking, r, Recover) > 0
  {
    hide Enabled, Next, Overtakes, Does, Inv;
    if steps != [] {
      var (front, step) := (steps[..|steps| - 1], steps[|steps| - 1]);
      RunInv(count, front);
      AllServed(count, front, r, Recover);
      var st := Run(count, front).value;
      if r in st.nodes {
        InitializedByRecovery(count, front, r);
        StepInitialized(st, step, r);
      } else {
        NewNodeServed(st, step, r, Recover);
        NewNodeWaits(st, step, r);
      }
    }
  }

  lemma NewNodeWaits(st: System, step: Step, r: Ref)
    requires Inv(st) && Enabled(st, step) && r !in st.nodes && r in Next(st, step).nodes
    ensures !Next(st, step).nodes[r].initialized
  {
    hide Count, BooksMatch, LoadsMatch, Current, NodesOk, TokensMatch, Apply;
  }

  // ---- Order --------------------------------------------------------------------------------------------

  /** The jobs that the pool has taken from the ready mailboxes, in the order it took them. */
  function Arrivals(count: nat, steps: seq<Step>): seq<Job> {
    if steps == [] then []
    else
      var (front, step) := (steps[..|steps| - 1], steps[|steps| - 1]);
      var before := Run(count, front);
      Arrivals(count, front)
      + if step.TakeRequest? && before.Some? && step.cluster in before.value.pool.nodes
        then [Job(step.kind, before.value.pool.nodes[step.cluster])] else []
  }

  /** `a` is `b` with elements left out. */
  predicate InOrderOf(a: seq<Job>, b: seq<Job>)
    decreases |b|
  {
    a == [] || (b != [] && ((a[|a| - 1] == b[|b| - 1] && InOrderOf(a[..|a| - 1], b[..|b| - 1]))
                            || InOrderOf(a, b[..|b| - 1])))
  }

  lemma InOrderSnoc(a: seq<Job>, b: seq<Job>, j: Job)
    requires InOrderOf(a, b)
    ensures InOrderOf(a + [j], b + [j])
  {
    assert (a + [j])[..|a|] == a && (b + [j])[..|b|] == b;
  }

  lemma {:induction false} InOrderWithout(a: seq<Job>, b: seq<Job>, i: nat)
    requires InOrderOf(a, b) && i < |a|
    ensures InOrderOf(RemoveAt(a, i), b)
    decreases |b|
  {
    var (x, y) := (|a| - 1, |b| - 1);
    if InOrderOf(a, b[..y]) {
      InOrderWithout(a, b[..y], i);
    } else if i == x {
      assert RemoveAt(a, i) == a[..x];
    } else {
      InOrderWithout(a[..x], b[..y], i);
      assert RemoveAt(a, i)[..x - 1] == RemoveAt(a[..x], i);
    }
  }

  lemma StepPending(st: System, step: Step)
    requires Enabled(st, step)
    ensures var (pending, pending') := (st.pool.pending, Next(st, step).pool.pending);
            if step.TakeRequest? then pending' == pending + [Job(step.kind, st.pool.nodes[step.cluster])]
            else pending' == pending
                 || (step.Schedule? && exists i :: 0 <= i < |pending| && pending' == RemoveAt(pending, i))
  {
    hide Apply, Count, AdoptLoads, CanSchedule;
  }

  /** In every run the pool's queue holds its jobs in the order in which they arrived. */
  lemma {:induction false} QueuedInOrder(count: nat, steps: seq<Step>)
    requires Run(count, steps).Some?
    ensures InOrderOf(Run(count, steps).value.pool.pending, Arrivals(count, steps))
  {
    hide Next, InOrderOf;
    if steps != [] {
      var (front, step) := (steps[..|steps| - 1], steps[|steps| - 1]);
      var st := Run(count, front).value;
      QueuedInOrder(count, front);
      StepPending(st, step);
      var arrived := Arrivals(count, front);
      if step.TakeRequest? {
        InOrderSnoc(st.pool.pending, arrived, Job(step.kind, st.pool.nodes[step.cluster]));
      } else {
        assert arrived + [] == arrived;
        if Next(st, step).pool.pending != st.pool.pending {
          var i :| 0 <= i < |st.pool.pending| && Next(st, step).pool.pending == RemoveAt(st.pool.pending, i);
          InOrderWithout(st.pool.pending, arrived, i);
        }
      }
    } else {
      NothingQueued(count);
    }
  }

  lemma NothingQueued(count: nat)
    ensures InOrderOf(Run(count, []).value.pool.pending, Arrivals(count, []))
  {
  }

  lemma StepAsStarted(st: System, step: Step, r: Ref)
    requires Enabled(st, step) && r in Next(st, step).nodes
    ensures var n' := Next(st, step).nodes[r];
            step == StartCluster(r, n'.onDisk, n'.concurrent)
            || (r in st.nodes && n'.onDisk == st.nodes[r].onDisk && n'.concurrent == st.nodes[r].concurrent)
  {
    hide Apply, Count, Adopt, CompleteJob, ScheduleWorker;
    if step.ApplyStep? {
      ApplyKeepsKind(st.nodes[step.node], step.task, step.canStream);
    }
  }

  lemma ApplyKeepsKind(n: Node, task: Option<Kind>, canStream: bool)
    ensures var n' := Apply(n, task, canStream).node; n'.onDisk == n.onDisk && n'.concurrent == n.concurrent
  {
  }

  /** In every run a node is of the kind it was started as. */
  lemma {:induction false} AsStarted(count: nat, steps: seq<Step>, r: Ref)
    requires Run(count, steps).Some? && r in Run(count, steps).value.nodes
    ensures var n := Run(count, steps).value.nodes[r]; StartCluster(r, n.onDisk, n.concurrent) in steps
  {
    hide Enabled, Next;
    if steps != [] {
      var (front, step) := (steps[..|steps| - 1], steps[|steps| - 1]);
      var st := Run(count, front).value;
      StepAsStarted(st, step, r);
      if r in st.nodes {
        AsStarted(count, front, r);
      }
      assert step in steps && forall x :: x in front ==> x in steps;
    }
  }
}
