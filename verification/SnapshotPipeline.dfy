/** Snapshot requests as they travel between a node's apply worker, the snapshot worker pool and the
    snapshot workers. Every step is one critical section or channel operation of one of them, and the
    steps of all of them interleave freely. Each place where the code would panic sets `panicked`. */
module SnapshotPipeline {
  import opened Bytes

  datatype Kind = Save | Recover | Stream

  /** One incarnation of a cluster's node on this host; `node` is the node id in the cluster. */
  datatype Ref = Ref(cluster: nat, node: nat, instance: nat)

  datatype Job = Job(kind: Kind, node: Ref)

  /** Where the apply worker is in its pass over a node. */
  datatype Phase = AtSave | AtStream | AtRecover | AtUninitialized | AtTask

  /** `flags` are the saving, recovering and streaming flags; `ready` and `completed` the mailboxes that
      hold an entry, the latter with its Initial field. */
  datatype Node = Node(onDisk: bool, concurrent: bool, initialized: bool,
                       flags: set<Kind>, ready: set<Kind>, completed: map<Kind, bool>, phase: Phase)

  datatype Pool = Pool(nodes: map<nat, Ref>, pending: seq<Job>, busy: map<nat, Ref>,
                       saving: set<nat>, recovering: set<nat>, streaming: map<nat, nat>, loads: map<Ref, int>)

  datatype Worker =
    | Idle | Requested(job: Job) | Running(job: Job) | Notifying(job: Job, initial: bool) | Finished(job: Job)

  /** `clusters` is the node host's map; `reading` a copy of it the pool has read but not yet adopted. */
  datatype System = System(nodes: map<Ref, Node>, clusters: map<nat, Ref>, pool: Pool, workers: seq<Worker>,
                           reading: Option<map<nat, Ref>>, panicked: bool)

  // ---- The apply worker ---------------------------------------------------------------------------

  datatype Applied = Applied(node: Node, panicked: bool)

  function Request(n: Node, k: Kind): Applied {
    Applied(n.(flags := n.flags + {k}, ready := n.ready + {k}, phase := AtSave), k in n.ready)
  }

  /** The completed task is taken and the flag cleared. */
  function Finish(n: Node, k: Kind): Node {
    n.(completed := n.completed - {k}, flags := n.flags - {k})
  }

  /** One step of processStatusTransition and handleSnapshotTask; `task` is what the state machine
      returns when it is asked, `canStream` whether it is ready to stream. */
  function Apply(n: Node, task: Option<Kind>, canStream: bool): Applied {
    match n.phase
    case AtSave =>
      if Save !in n.flags then Applied(n.(phase := AtStream), false)
      else if Save !in n.completed then Applied(n.(phase := if n.concurrent then AtStream else AtSave), false)
      else Applied(Finish(n, Save).(phase := AtStream), !n.initialized)
    case AtStream =>
      if Stream !in n.flags then Applied(n.(phase := AtRecover), false)
      else if Stream !in n.completed then Applied(n.(phase := AtRecover), !n.onDisk)
      else Applied(Finish(n, Stream).(phase := AtRecover), !n.onDisk)
    case AtRecover =>
      if Recover !in n.flags then Applied(n.(phase := AtUninitialized), false)
      else if Recover !in n.completed then Applied(n.(phase := AtSave), false)
      else
        var initial := n.completed[Recover];
        Applied(Finish(n, Recover).(initialized := n.initialized || initial, phase := AtUninitialized),
                initial && n.initialized)
    case AtUninitialized =>
      if n.initialized then Applied(n.(phase := AtTask), false) else Request(n, Recover)
    case AtTask =>
      if task.None? then Applied(n.(phase := AtSave), false)
      else if Recover in n.flags then Applied(n, true)
      else if task.value == Save && Save in n.flags then Applied(n.(phase := AtSave), false)
      else if task.value == Stream && (Stream in n.flags || !canStream) then Applied(n.(phase := AtSave), false)
      else Request(n, task.value)
  }

  /** What a pass of the apply worker does with requests, in terms of flags and mailboxes. A task that the state machine
      returns is passed on exactly when nothing of its kind is flagged and, to stream, when it can stream; a
      node that is not initialized asks to recover. */
  lemma RequestIsPassedOn(n: Node, task: Option<Kind>, canStream: bool)
    requires !Apply(n, task, canStream).panicked
    ensures var n' := Apply(n, task, canStream).node;
            && (n.phase == AtTask ==>
                  if task.Some? && task.value !in n.flags && Recover !in n.flags && (task.value == Stream ==> canStream)
                  then n'.flags == n.flags + {task.value} && n'.ready == n.ready + {task.value}
                  else n'.flags == n.flags && n'.ready == n.ready)
            && (n.phase == AtUninitialized ==>
                  if n.initialized then n'.flags == n.flags && n'.ready == n.ready
                  else n'.flags == n.flags + {Recover} && n'.ready == n.ready + {Recover})
            && (n.phase == AtTask || n.phase == AtUninitialized ==>
                  n'.completed == n.completed && n'.initialized == n.initialized)
            && n'.onDisk == n.onDisk && n'.concurrent == n.concurrent
  {
  }

  /** The kind of request whose completion a phase looks for. */
  function LooksFor(phase: Phase): Option<Kind> {
    match phase
    case AtSave => Some(Save)
    case AtStream => Some(Stream)
    case AtRecover => Some(Recover)
    case AtUninitialized => None
    case AtTask => None
  }

  /** A completed request is taken and its flag cleared; nothing else is touched. */
  lemma CompletionIsTaken(n: Node, task: Option<Kind>, canStream: bool)
    requires LooksFor(n.phase).Some?
    ensures var (n', k) := (Apply(n, task, canStream).node, LooksFor(n.phase).value);
            && n'.ready == n.ready
            && (if k in n.flags && k in n.completed
                then n'.flags == n.flags - {k} && n'.completed == n.completed - {k}
                else n'.flags == n.flags && n'.completed == n.completed)
  {
    match n.phase
    case AtSave => assert Finish(n, Save).flags == n.flags - {Save};
    case AtStream => assert Finish(n, Stream).flags == n.flags - {Stream};
    case AtRecover => assert Finish(n, Recover).flags == n.flags - {Recover};
  }

  /** A node becomes initialized when its initial recovery is taken, and in no other way. */
  lemma RecoveryInitializes(n: Node, task: Option<Kind>, canStream: bool)
    ensures Apply(n, task, canStream).node.initialized <==>
              n.initialized
              || (n.phase == AtRecover && Recover in n.flags && Recover in n.completed && n.completed[Recover])
  {
  }

  /** A pass stops at a save that is not concurrent or a recovery that is not completed, and otherwise goes through to
      the state machine's next task. */
  lemma PassGoesOn(n: Node, task: Option<Kind>, canStream: bool)
    requires !Apply(n, task, canStream).panicked
    ensures var stopped := match n.phase
                           case AtSave => Save in n.flags && Save !in n.completed && !n.concurrent
                           case AtStream => false
                           case AtRecover => Recover in n.flags && Recover !in n.completed
                           case AtUninitialized => !n.initialized
                           case AtTask => true;
            Apply(n, task, canStream).node.phase
            == if stopped then AtSave
               else match n.phase
                    case AtSave => AtStream
                    case AtStream => AtRecover
                    case AtRecover => AtUninitialized
                    case AtUninitialized => AtTask
                    case AtTask => AtSave
  {
  }

  // ---- The pool -----------------------------------------------------------------------------------

  predicate InProgress(p: Pool, c: nat) {
    c in p.saving || c in p.recovering || c in p.streaming
  }

  predicate CanSchedule(p: Pool, j: Job) {
    match j.kind
    case Recover => !InProgress(p, j.node.cluster)
    case Save => !InProgress(p, j.node.cluster)
    case Stream => j.node.cluster !in p.saving && j.node.cluster !in p.recovering
  }

  function Load(p: Pool, r: Ref): int {
    if r in p.loads then p.loads[r] else 0
  }

  function AddLoad(p: Pool, r: Ref, d: int): Pool {
    p.(loads := p.loads[r := Load(p, r) + d])
  }

  datatype Outcome = Outcome(pool: Pool, panicked: bool)

  /** start: the worker is marked busy with the node and the node's cluster with the job. */
  function StartJob(p: Pool, j: Job, n: Ref, w: nat): Outcome {
    var q := AddLoad(p, n, 1).(busy := p.busy[w := n]);
    match j.kind
    case Recover => Outcome(q.(recovering := q.recovering + {n.cluster}), w in p.busy || n.cluster in p.recovering)
    case Save => Outcome(q.(saving := q.saving + {n.cluster}), w in p.busy || n.cluster in p.saving)
    case Stream =>
      var count := if n.cluster in p.streaming then p.streaming[n.cluster] else 0;
      Outcome(q.(streaming := q.streaming[n.cluster := count + 1]), w in p.busy)
  }

  /** getWorker: the first idle worker at or after w. */
  function FirstIdle(busy: map<nat, Ref>, w: nat, count: nat): (r: Option<nat>)
    ensures r.Some? ==> w <= r.value < count && r.value !in busy
    decreases count - w
  {
    if w >= count then None else if w !in busy then Some(w) else FirstIdle(busy, w + 1, count)
  }

  /** The first pending job at or after i whose node is gone or that may start now. */
  function FirstActionable(p: Pool, i: nat): (r: Option<nat>)
    ensures r.Some? ==> i <= r.value < |p.pending|
    ensures r.Some? && p.pending[r.value].node.cluster in p.nodes ==> CanSchedule(p, p.pending[r.value])
    decreases |p.pending| - i
  {
    if i >= |p.pending| then None
    else if p.pending[i].node.cluster !in p.nodes || CanSchedule(p, p.pending[i]) then Some(i)
    else FirstActionable(p, i + 1)
  }

  function RemoveAt(s: seq<Job>, i: nat): seq<Job>
    requires i < |s|
  {
    s[..i] + s[i + 1..]
  }

  /** What one call of scheduleWorker does: nothing, or drop or start one pending job. */
  datatype Scheduled = Nothing | Dropped(pool: Pool) | Sent(outcome: Outcome, worker: nat, job: Job)

  function ScheduleWorker(p: Pool, count: nat): Scheduled {
    var w, i := FirstIdle(p.busy, 0, count), FirstActionable(p, 0);
    if w.None? || i.None? then Nothing
    else
      var j := p.pending[i.value];
      var rest := RemoveAt(p.pending, i.value);
      if j.node.cluster !in p.nodes || p.nodes[j.node.cluster].instance != j.node.instance
      then Dropped(p.(pending := rest))
      else
        var o := StartJob(p, j, p.nodes[j.node.cluster], w.value);
        Sent(o.(pool := o.pool.(pending := rest)), w.value, j)
  }

  /** A pending job that can be acted on: its node is gone, or its cluster is free for it. Saves and recoveries exclude
      everything else of the cluster, streams exclude only them. */
  predicate Actionable(p: Pool, j: Job) {
    var c := j.node.cluster;
    c !in p.nodes
    || (c !in p.saving && c !in p.recovering && (j.kind == Stream || c !in p.streaming))
  }

  lemma {:induction false} FirstIdleIsFirst(busy: map<nat, Ref>, w: nat, count: nat)
    ensures var r := FirstIdle(busy, w, count);
            && (r.None? ==> forall x :: w <= x < count ==> x in busy)
            && (r.Some? ==> forall x :: w <= x < r.value ==> x in busy)
    decreases count - w
  {
    if w < count && w in busy {
      FirstIdleIsFirst(busy, w + 1, count);
    }
  }

  lemma {:induction false} FirstActionableIsFirst(p: Pool, i: nat)
    ensures var r := FirstActionable(p, i);
            && (r.None? ==> forall x :: i <= x < |p.pending| ==> !Actionable(p, p.pending[x]))
            && (r.Some? ==> Actionable(p, p.pending[r.value])
                            && forall x :: i <= x < r.value ==> !Actionable(p, p.pending[x]))
    decreases |p.pending| - i
  {
    if i < |p.pending| && !Actionable(p, p.pending[i]) {
      FirstActionableIsFirst(p, i + 1);
    }
  }

  /** The scheduler acts whenever it can: unless every worker is busy or no pending job can be acted on, the first idle
      worker is given the first such job, or that job is dropped, exactly when its incarnation is not in the pool. */
  lemma ScheduleActs(p: Pool, count: nat)
    ensures ScheduleWorker(p, count) == Nothing <==>
              (forall w :: 0 <= w < count ==> w in p.busy)
              || (forall i :: 0 <= i < |p.pending| ==> !Actionable(p, p.pending[i]))
    ensures ScheduleWorker(p, count) != Nothing ==>
              exists i, w ::
                && 0 <= i < |p.pending| && Actionable(p, p.pending[i])
                && (forall x :: 0 <= x < i ==> !Actionable(p, p.pending[x]))
                && 0 <= w < count && w !in p.busy && (forall x :: 0 <= x < w ==> x in p.busy)
                && var (j, rest) := (p.pending[i], p.pending[..i] + p.pending[i + 1..]);
                   match ScheduleWorker(p, count)
                   case Nothing => false
                   case Dropped(q) =>
                     q == p.(pending := rest)
                     && !(j.node.cluster in p.nodes && p.nodes[j.node.cluster].instance == j.node.instance)
                   case Sent(o, worker, job) =>
                     worker == w && job == j && o.pool.pending == rest
                     && j.node.cluster in p.nodes && p.nodes[j.node.cluster].instance == j.node.instance
  {
    FirstIdleIsFirst(p.busy, 0, count);
    FirstActionableIsFirst(p, 0);
    if ScheduleWorker(p, count) != Nothing {
      var (i, w) := (FirstActionable(p, 0).value, FirstIdle(p.busy, 0, count).value);
      assert RemoveAt(p.pending, i) == p.pending[..i] + p.pending[i + 1..];
    }
  }

  function Bit(b: bool): nat { if b then 1 else 0 }

  /** completed: the worker's cluster must be found in exactly one of the three books. */
  function CompleteJob(p: Pool, w: nat): Outcome {
    if w !in p.busy then Outcome(p, true)
    else
      var n := p.busy[w];
      var c := n.cluster;
      var count := Bit(c in p.saving) + Bit(c in p.recovering) + Bit(c in p.streaming);
      var streaming := if c !in p.streaming then p.streaming
                       else if p.streaming[c] <= 1 then p.streaming - {c}
                       else p.streaming[c := p.streaming[c] - 1];
      Outcome(AddLoad(p, n, -1).(saving := p.saving - {c}, recovering := p.recovering - {c}, streaming := streaming,
                                 busy := p.busy - {w}),
              count != 1 || (c in p.streaming && p.streaming[c] == 0))
  }

  /** loadNodes: the pool adopts the host's clusters, keeping what it has. */
  function AdoptLoads(p: Pool, hosted: map<nat, Ref>): map<Ref, int> {
    map r | r in p.loads.Keys + p.nodes.Values + hosted.Values ::
      Load(p, r) + Bit(r.cluster in hosted && hosted[r.cluster] == r && r.cluster !in p.nodes)
                 - Bit(r.cluster in p.nodes && p.nodes[r.cluster] == r && r.cluster !in hosted)
  }

  function Adopt(p: Pool, hosted: map<nat, Ref>): Outcome {
    Outcome(p.(nodes := map c | c in hosted :: if c in p.nodes then p.nodes[c] else hosted[c],
               loads := AdoptLoads(p, hosted)),
            exists c :: c in hosted && c in p.nodes && hosted[c].instance != p.nodes[c].instance)
  }

  // ---- Steps --------------------------------------------------------------------------------------

  datatype Step =
    | StartCluster(ref: Ref, onDisk: bool, concurrent: bool)
    | StopCluster(cluster: nat)
    | ApplyStep(node: Ref, task: Option<Kind>, canStream: bool)
    | ReadClusters
    | AdoptClusters
    | TakeRequest(cluster: nat, kind: Kind)
    | Schedule
    | WorkerBegins(worker: nat)
    | WorkerReturns(worker: nat)
    | WorkerNotifies(worker: nat)
    | Completion(worker: nat)

  /** The engine finds a node with this cluster and node id still loaded. Of the busy workers of one cluster it
      sees a single one, which may be any. */
  predicate Loaded(p: Pool, r: Ref) {
    || (r.cluster in p.nodes && p.nodes[r.cluster].node == r.node)
    || ((exists w :: w in p.busy && p.busy[w].cluster == r.cluster)
        && (forall w :: w in p.busy && p.busy[w].cluster == r.cluster ==> p.busy[w].node == r.node))
  }

  predicate Enabled(st: System, step: Step) {
    !st.panicked &&
    match step
    case StartCluster(r, _, _) =>
      r.cluster !in st.clusters && !Loaded(st.pool, r) && forall x :: x in st.nodes ==> x.instance != r.instance
    case StopCluster(c) => c in st.clusters
    case ApplyStep(r, task, _) => r in st.nodes && (task == Some(Stream) ==> st.nodes[r].onDisk)
    case ReadClusters => st.reading.None?
    case AdoptClusters => st.reading.Some?
    case TakeRequest(c, k) => c in st.pool.nodes && st.pool.nodes[c] in st.nodes
      && k in st.nodes[st.pool.nodes[c]].ready
    case Schedule => ScheduleWorker(st.pool, |st.workers|) != Nothing
    case WorkerBegins(w) => w < |st.workers| && st.workers[w].Requested?
    case WorkerReturns(w) => w < |st.workers| && st.workers[w].Running? && st.workers[w].job.node in st.nodes
    case WorkerNotifies(w) => w < |st.workers| && st.workers[w].Notifying? && st.workers[w].job.node in st.nodes
    case Completion(w) => w < |st.workers| && st.workers[w].Finished?
  }

  const NEW_NODE: Node := Node(false, false, false, {}, {}, map[], AtSave)

  function Next(st: System, step: Step): System
    requires Enabled(st, step)
  {
    match step
    case StartCluster(r, onDisk, concurrent) =>
      st.(nodes := st.nodes[r := NEW_NODE.(onDisk := onDisk, concurrent := concurrent)],
          clusters := st.clusters[r.cluster := r])
    case StopCluster(c) => st.(clusters := st.clusters - {c})
    case ApplyStep(r, task, canStream) =>
      var a := Apply(st.nodes[r], task, canStream);
      st.(nodes := st.nodes[r := a.node], panicked := a.panicked)
    case ReadClusters => st.(reading := Some(st.clusters))
    case AdoptClusters =>
      var o := Adopt(st.pool, st.reading.value);
      st.(pool := o.pool, panicked := o.panicked, reading := None)
    case TakeRequest(c, k) =>
      var r := st.pool.nodes[c];
      st.(nodes := st.nodes[r := st.nodes[r].(ready := st.nodes[r].ready - {k})],
          pool := st.pool.(pending := st.pool.pending + [Job(k, r)]))
    case Schedule => (
      match ScheduleWorker(st.pool, |st.workers|)
      case Dropped(p) => st.(pool := p)
      case Sent(o, w, j) =>
        st.(pool := o.pool, workers := st.workers[w := Requested(j)], panicked := o.panicked || !st.workers[w].Idle?)
      case Nothing => st)
    case WorkerBegins(w) => st.(workers := st.workers[w := Running(st.workers[w].job)])
    case WorkerReturns(w) =>
      var j := st.workers[w].job;
      st.(workers := st.workers[w := Notifying(j, j.kind == Recover && !st.nodes[j.node].initialized)])
    case WorkerNotifies(w) =>
      var j := st.workers[w].job;
      st.(workers := st.workers[w := Finished(j)],
          nodes := st.nodes[j.node :=
            st.nodes[j.node].(completed := st.nodes[j.node].completed[j.kind := st.workers[w].initial])],
          panicked := j.kind in st.nodes[j.node].completed)
    case Completion(w) =>
      var o := CompleteJob(st.pool, w);
      st.(pool := o.pool, workers := st.workers[w := Idle], panicked := o.panicked)
  }

  function Initial(count: nat): System {
    System(map[], map[], Pool(map[], [], map[], {}, {}, map[], map[]), seq(count, _ => Idle), None, false)
  }

  function Run(count: nat, steps: seq<Step>): Option<System> {
    if steps == [] then Some(Initial(count))
    else
      var before := Run(count, steps[..|steps| - 1]);
      if before.Some? && Enabled(before.value, steps[|steps| - 1])
      then Some(Next(before.value, steps[|steps| - 1])) else None
  }

  // ---- The invariant ------------------------------------------------------------------------------

  /** What a worker may be counted for: carrying the token of a job, being engaged in a kind of job for
      a cluster, or using a node. A finished worker has handed its token on but is still engaged. */
  datatype Query = Carrying(job: Job) | Engaged(kind: Kind, cluster: nat) | Using(node: Ref)

  predicate Matches(w: Worker, q: Query) {
    !w.Idle? &&
    match q
    case Carrying(j) => w.job == j && !w.Finished?
    case Engaged(k, c) => w.job.kind == k && w.job.node.cluster == c
    case Using(n) => w.job.node == n
  }

  function Count(ws: seq<Worker>, q: Query): nat {
    if ws == [] then 0 else Count(ws[..|ws| - 1], q) + Bit(Matches(ws[|ws| - 1], q))
  }

  lemma {:induction false} CountUpdate(ws: seq<Worker>, i: nat, w: Worker, q: Query)
    requires i < |ws|
    ensures Count(ws[i := w], q) == Count(ws, q) - Bit(Matches(ws[i], q)) + Bit(Matches(w, q))
  {
    var n := |ws| - 1;
    if i < n {
      CountUpdate(ws[..n], i, w, q);
      assert ws[i := w][..n] == ws[..n][i := w];
    } else {
      assert ws[i := w][..n] == ws[..n];
    }
  }

  lemma {:induction false} CountPositive(ws: seq<Worker>, q: Query, i: nat)
    requires i < |ws| && Matches(ws[i], q)
    ensures Count(ws, q) >= 1
  {
    if i < |ws| - 1 {
      CountPositive(ws[..|ws| - 1], q, i);
    }
  }

  lemma {:induction false} CountZero(ws: seq<Worker>, q: Query)
    requires forall i :: 0 <= i < |ws| ==> !Matches(ws[i], q)
    ensures Count(ws, q) == 0
  {
    if ws != [] {
      CountZero(ws[..|ws| - 1], q);
    }
  }

  /** The host has not stopped this incarnation. */
  predicate Live(st: System, r: Ref) {
    r.cluster in st.clusters && st.clusters[r.cluster] == r
  }

  /** Tokens of one kind for one node: in the ready slot, queued, with a worker, in the completed slot. */
  function Tokens(st: System, r: Ref, k: Kind): nat
    requires r in st.nodes
  {
    Bit(k in st.nodes[r].ready) + multiset(st.pool.pending)[Job(k, r)] + Count(st.workers, Carrying(Job(k, r)))
    + Bit(k in st.nodes[r].completed)
  }

  /** One token while the flag is set, none otherwise; the token of a stopped node may have been dropped. */
  ghost predicate TokensMatch(st: System) {
    forall r, k :: r in st.nodes ==>
      && Tokens(st, r, k) <= Bit(k in st.nodes[r].flags)
      && (Live(st, r) ==> Tokens(st, r, k) == Bit(k in st.nodes[r].flags))
  }

  predicate NodeOk(n: Node) {
    && (n.initialized || n.flags <= {Recover})
    && (Stream in n.flags ==> n.onDisk)
    && (n.phase == AtUninitialized || n.phase == AtTask ==> Recover !in n.flags)
    && (n.phase == AtTask ==> n.initialized)
    && (Recover in n.completed ==> n.completed[Recover] == !n.initialized)
  }

  predicate NodesOk(st: System) {
    && (forall r :: r in st.nodes ==> NodeOk(st.nodes[r]))
    && (forall i :: 0 <= i < |st.workers| && st.workers[i].Notifying? && st.workers[i].job.kind == Recover ==>
          st.workers[i].job.node in st.nodes && st.workers[i].initial == !st.nodes[st.workers[i].job.node].initialized)
  }

  /** Jobs and maps speak of nodes that exist, filed under their own cluster. */
  predicate Known(st: System) {
    && (forall i :: 0 <= i < |st.pool.pending| ==> st.pool.pending[i].node in st.nodes)
    && (forall i :: 0 <= i < |st.workers| && !st.workers[i].Idle? ==> st.workers[i].job.node in st.nodes)
    && (forall c :: c in st.pool.nodes ==> st.pool.nodes[c].cluster == c && st.pool.nodes[c] in st.nodes)
    && (forall c :: c in st.clusters ==> st.clusters[c].cluster == c && st.clusters[c] in st.nodes)
    && (st.reading.Some? ==> forall c :: c in st.reading.value ==>
      st.reading.value[c].cluster == c && st.reading.value[c] in st.nodes)
    && (forall r, s :: r in st.nodes && s in st.nodes && r.instance == s.instance ==> r == s)
  }

  /** No two incarnations of one cluster meet, and a pending job of a node the host still runs finds it
      in the pool. */
  predicate Current(st: System) {
    && (st.reading.None? ==>
          forall c :: c in st.pool.nodes && c in st.clusters ==> st.pool.nodes[c] == st.clusters[c])
    && (st.reading.Some? ==>
          && (forall c :: c in st.reading.value && c in st.clusters ==> st.reading.value[c] == st.clusters[c])
          && (forall c :: c in st.reading.value && c in st.pool.nodes ==> st.reading.value[c] == st.pool.nodes[c])
          && (forall c :: c in st.pool.nodes && Live(st, st.pool.nodes[c]) ==> c in st.reading.value))
    && (forall i :: 0 <= i < |st.pool.pending| && Live(st, st.pool.pending[i].node) ==>
          && st.pool.pending[i].node.cluster in st.pool.nodes
          && st.pool.nodes[st.pool.pending[i].node.cluster] == st.pool.pending[i].node)
  }

  /** The pool's books agree with what the workers are doing. */
  ghost predicate BooksMatch(p: Pool, ws: seq<Worker>) {
    && (forall w: nat :: w in p.busy <==> w < |ws| && !ws[w].Idle?)
    && (forall w: nat :: w in p.busy ==> p.busy[w] == ws[w].job.node)
    && (forall c :: Count(ws, Engaged(Save, c)) == Bit(c in p.saving))
    && (forall c :: Count(ws, Engaged(Recover, c)) == Bit(c in p.recovering))
    && (forall c :: Count(ws, Engaged(Stream, c)) == if c in p.streaming then p.streaming[c] else 0)
    && (forall c :: c in p.streaming ==> p.streaming[c] > 0)
    && p.saving !! p.recovering && p.saving !! p.streaming.Keys && p.recovering !! p.streaming.Keys
  }

  /** Loads less offloads: once for being in the pool's map and once for every busy use. */
  ghost predicate LoadsMatch(p: Pool, ws: seq<Worker>) {
    forall r :: Load(p, r) == Bit(r.cluster in p.nodes && p.nodes[r.cluster] == r) + Count(ws, Using(r))
  }

  ghost predicate Inv(st: System) {
    && !st.panicked && Known(st) && Current(st) && NodesOk(st) && TokensMatch(st)
    && BooksMatch(st.pool, st.workers) && LoadsMatch(st.pool, st.workers)
  }

  lemma InitialInv(count: nat)
    ensures Inv(Initial(count))
  {
    var st := Initial(count);
    forall q: Query ensures Count(st.workers, q) == 0 {
      CountZero(st.workers, q);
    }
  }

  // ---- The apply worker keeps it ------------------------------------------------------------------

  /** The apply worker neither overfills a mailbox nor trips an assertion, if what is ready is flagged. */
  lemma ApplyOk(n: Node, task: Option<Kind>, canStream: bool)
    requires NodeOk(n) && n.ready <= n.flags && (task == Some(Stream) ==> n.onDisk)
    ensures var a := Apply(n, task, canStream);
            && !a.panicked && NodeOk(a.node)
            && (a.node.initialized != n.initialized ==> Recover in n.completed && Recover in n.flags)
  {
  }

  /** The tokens of one kind that a node has too few, `elsewhere` counting those in the pool and with
      workers. */
  function Missing(n: Node, k: Kind, elsewhere: nat): int {
    Bit(k in n.flags) - Bit(k in n.ready) - elsewhere - Bit(k in n.completed)
  }

  lemma FinishTokens(n: Node, done: Kind, k: Kind, elsewhere: nat)
    requires done in n.flags && done in n.completed
    ensures Missing(Finish(n, done), k, elsewhere) == Missing(n, k, elsewhere)
  {
  }

  /** Tokens do not depend on the phase or on initialization. */
  lemma SameMissing(n: Node, n': Node, k: Kind, elsewhere: nat)
    requires n'.flags == n.flags && n'.ready == n.ready && n'.completed == n.completed
    ensures Missing(n', k, elsewhere) == Missing(n, k, elsewhere)
  {
  }

  lemma TakingTokens(n: Node, task: Option<Kind>, canStream: bool, k: Kind, elsewhere: nat)
    requires n.phase == AtSave || n.phase == AtStream || n.phase == AtRecover
    ensures Missing(Apply(n, task, canStream).node, k, elsewhere) == Missing(n, k, elsewhere)
  {
    hide Missing, Finish;
    var n' := Apply(n, task, canStream).node;
    var done := if n.phase == AtSave then Save else if n.phase == AtStream then Stream else Recover;
    if done in n.flags && done in n.completed {
      FinishTokens(n, done, k, elsewhere);
      SameMissing(Finish(n, done), n', k, elsewhere);
    } else {
      SameMissing(n, n', k, elsewhere);
    }
  }

  lemma RequestingTokens(n: Node, task: Option<Kind>, canStream: bool, k: Kind, elsewhere: nat)
    requires NodeOk(n) && (n.phase == AtUninitialized || n.phase == AtTask)
    requires Missing(n, k, elsewhere) >= 0
    ensures Missing(Apply(n, task, canStream).node, k, elsewhere) == Missing(n, k, elsewhere)
  {
  }

  /** The apply worker creates a token exactly when it sets a flag and takes one exactly when it clears a
      flag. */
  lemma ApplyTokens(n: Node, task: Option<Kind>, canStream: bool, k: Kind, elsewhere: nat)
    requires NodeOk(n) && Missing(n, k, elsewhere) >= 0
    ensures Missing(Apply(n, task, canStream).node, k, elsewhere) == Missing(n, k, elsewhere)
  {
    hide Apply, NodeOk, Missing;
    if n.phase == AtUninitialized || n.phase == AtTask {
      RequestingTokens(n, task, canStream, k, elsewhere);
    } else {
      TakingTokens(n, task, canStream, k, elsewhere);
    }
  }

  lemma ApplyInv(st: System, r: Ref, task: Option<Kind>, canStream: bool)
    requires Inv(st) && Enabled(st, ApplyStep(r, task, canStream))
    ensures Inv(Next(st, ApplyStep(r, task, canStream)))
  {
    hide Apply, NodeOk, BooksMatch, LoadsMatch, Current;
    var n := st.nodes[r];
    var st' := Next(st, ApplyStep(r, task, canStream));
    forall k | k in n.ready ensures k in n.flags {
      assert Tokens(st, r, k) <= Bit(k in n.flags);
    }
    ApplyOk(n, task, canStream);
    forall x, k | x in st'.nodes
      ensures Tokens(st', x, k) <= Bit(k in st'.nodes[x].flags)
      ensures Live(st', x) ==> Tokens(st', x, k) == Bit(k in st'.nodes[x].flags)
    {
      assert Tokens(st, x, k) <= Bit(k in st.nodes[x].flags);
      if x == r {
        ApplyTokens(n, task, canStream, k, multiset(st.pool.pending)[Job(k, r)]
          + Count(st.workers, Carrying(Job(k, r))));
      }
    }
    forall i | 0 <= i < |st.workers| && st.workers[i].Notifying? && st.workers[i].job.kind == Recover
      ensures st.workers[i].initial == !st'.nodes[st.workers[i].job.node].initialized
    {
      if st.workers[i].job.node == r {
        CountPositive(st.workers, Carrying(Job(Recover, r)), i);
        assert Tokens(st, r, Recover) <= Bit(Recover in n.flags);
      }
    }
    SameCurrent(st, st');
  }

  /** Current does not look at the nodes themselves. */
  lemma SameCurrent(st: System, st': System)
    requires Current(st) && st'.clusters == st.clusters && st'.reading == st.reading
    requires st'.pool.nodes == st.pool.nodes && st'.pool.pending == st.pool.pending
    ensures Current(st')
  {
    assert forall x :: Live(st', x) == Live(st, x);
  }

  // ---- Clusters come and go -----------------------------------------------------------------------

  /** The clusters the pool is going to have: the copy it is about to adopt, if it has read one. */
  function Held(st: System): map<nat, Ref> {
    if st.reading.Some? then st.reading.value else st.pool.nodes
  }

  /** The step starts a cluster of which the pool is going to have an earlier incarnation: one in a copy of the
      host's map that it has read, or one with another node id that it has not let go. */
  predicate Overtakes(st: System, step: Step) {
    step.StartCluster? && step.ref.cluster in Held(st)
  }

  lemma NoStray(st: System, r: Ref, k: Kind)
    requires Known(st) && r !in st.nodes
    ensures multiset(st.pool.pending)[Job(k, r)] == 0 && Count(st.workers, Carrying(Job(k, r))) == 0
  {
    assert Job(k, r) !in st.pool.pending;
    CountZero(st.workers, Carrying(Job(k, r)));
  }

  lemma StartTokens(st: System, r: Ref, onDisk: bool, concurrent: bool)
    requires Inv(st) && Enabled(st, StartCluster(r, onDisk, concurrent))
    ensures TokensMatch(Next(st, StartCluster(r, onDisk, concurrent)))
  {
    hide BooksMatch, LoadsMatch, Current, NodesOk, Known, Loaded;
    var st' := Next(st, StartCluster(r, onDisk, concurrent));
    forall x, k | x in st'.nodes
      ensures Tokens(st', x, k) <= Bit(k in st'.nodes[x].flags)
      ensures Live(st', x) ==> Tokens(st', x, k) == Bit(k in st'.nodes[x].flags)
    {
      if x == r {
        NoStray(st, r, k);
      } else {
        assert Tokens(st, x, k) <= Bit(k in st.nodes[x].flags);
      }
    }
  }

  lemma StartCurrent(st: System, r: Ref, onDisk: bool, concurrent: bool)
    requires Known(st) && Current(st)
    requires Enabled(st, StartCluster(r, onDisk, concurrent)) && !Overtakes(st, StartCluster(r, onDisk, concurrent))
    ensures Current(Next(st, StartCluster(r, onDisk, concurrent)))
  {
    var st' := Next(st, StartCluster(r, onDisk, concurrent));
    assert forall x :: x in st.nodes && Live(st', x) ==> Live(st, x);
  }

  lemma StartInv(st: System, r: Ref, onDisk: bool, concurrent: bool)
    requires Inv(st) && Enabled(st, StartCluster(r, onDisk, concurrent))
      && !Overtakes(st, StartCluster(r, onDisk, concurrent))
    ensures Inv(Next(st, StartCluster(r, onDisk, concurrent)))
  {
    hide BooksMatch, LoadsMatch, Current, TokensMatch, Loaded;
    StartTokens(st, r, onDisk, concurrent);
    StartCurrent(st, r, onDisk, concurrent);
  }

  lemma StopInv(st: System, c: nat)
    requires Inv(st) && c in st.clusters
    ensures Inv(Next(st, StopCluster(c)))
  {
    hide BooksMatch, LoadsMatch, NodeOk;
    var st' := Next(st, StopCluster(c));
    forall x, k | x in st'.nodes
      ensures Tokens(st', x, k) <= Bit(k in st'.nodes[x].flags)
      ensures Live(st', x) ==> Tokens(st', x, k) == Bit(k in st'.nodes[x].flags)
    {
      assert Tokens(st, x, k) == Tokens(st', x, k);
    }
  }

  /** Tokens are where they were as long as these parts of the state are the same. */
  lemma SameTokens(st: System, st': System)
    requires TokensMatch(st) && st'.nodes == st.nodes && st'.clusters == st.clusters
    requires st'.pool.pending == st.pool.pending && st'.workers == st.workers
    ensures TokensMatch(st')
  {
    forall x, k | x in st'.nodes
      ensures Tokens(st', x, k) <= Bit(k in st'.nodes[x].flags)
      ensures Live(st', x) ==> Tokens(st', x, k) == Bit(k in st'.nodes[x].flags)
    {
      assert Tokens(st, x, k) == Tokens(st', x, k);
    }
  }

  lemma ReadInv(st: System)
    requires Inv(st) && Enabled(st, ReadClusters)
    ensures Inv(Next(st, ReadClusters))
  {
    hide BooksMatch, LoadsMatch, NodeOk, TokensMatch;
    SameTokens(st, Next(st, ReadClusters));
  }

  lemma AdoptLoadsMatch(p: Pool, ws: seq<Worker>, hosted: map<nat, Ref>)
    requires LoadsMatch(p, ws)
    requires forall c :: c in p.nodes ==> p.nodes[c].cluster == c
    requires forall c :: c in hosted ==> hosted[c].cluster == c
    requires forall c :: c in hosted && c in p.nodes ==> hosted[c] == p.nodes[c]
    ensures LoadsMatch(Adopt(p, hosted).pool, ws)
  {
    var q := Adopt(p, hosted).pool;
    forall r ensures Load(q, r) == Bit(r.cluster in q.nodes && q.nodes[r.cluster] == r) + Count(ws, Using(r)) {
      assert Load(p, r) == Bit(r.cluster in p.nodes && p.nodes[r.cluster] == r) + Count(ws, Using(r));
      if r !in p.loads.Keys + p.nodes.Values + hosted.Values {
        assert !(r.cluster in hosted && hosted[r.cluster] == r);
      }
    }
  }

  lemma AdoptCurrent(st: System)
    requires Known(st) && Current(st) && st.reading.Some?
    ensures !Adopt(st.pool, st.reading.value).panicked
    ensures Adopt(st.pool, st.reading.value).pool.nodes == st.reading.value
    ensures var st' := st.(pool := Adopt(st.pool, st.reading.value).pool, reading := None); Known(st') && Current(st')
  {
    hide AdoptLoads;
    var p := Adopt(st.pool, st.reading.value).pool;
    assert p.nodes == st.reading.value;
    var st' := st.(pool := p, reading := None);
    assert forall x :: Live(st', x) == Live(st, x);
  }

  lemma AdoptInv(st: System)
    requires Inv(st) && Enabled(st, AdoptClusters)
    ensures Inv(Next(st, AdoptClusters))
  {
    hide LoadsMatch, NodeOk, TokensMatch, AdoptLoads, BooksMatch, Known, Current;
    var st' := Next(st, AdoptClusters);
    AdoptCurrent(st);
    AdoptFacts(st);
    AdoptLoadsMatch(st.pool, st.workers, st.reading.value);
    SameTokens(st, st');
    SameBooks(st.pool, st'.pool, st.workers);
  }

  lemma AdoptFacts(st: System)
    requires Known(st) && Current(st) && st.reading.Some?
    ensures forall c :: c in st.pool.nodes ==> st.pool.nodes[c].cluster == c
    ensures forall c :: c in st.reading.value ==> st.reading.value[c].cluster == c
    ensures forall c :: c in st.reading.value && c in st.pool.nodes ==> st.reading.value[c] == st.pool.nodes[c]
  {
  }

  lemma SameBooks(p: Pool, p': Pool, ws: seq<Worker>)
    requires BooksMatch(p, ws)
    requires p'.busy == p.busy && p'.saving == p.saving && p'.recovering == p.recovering && p'.streaming == p.streaming
    ensures BooksMatch(p', ws)
  {
  }

  // ---- The pool and its workers -------------------------------------------------------------------

  /** A token moves, for one node and kind, and nothing else changes. */
  lemma TokenMoves(st: System, st': System, r: Ref, k: Kind)
    requires TokensMatch(st) && r in st.nodes && st'.nodes.Keys == st.nodes.Keys && st'.clusters == st.clusters
    requires forall x :: x in st.nodes ==> st'.nodes[x].flags == st.nodes[x].flags
    requires forall x, h :: x in st.nodes && (x != r || h != k) ==> Tokens(st', x, h) == Tokens(st, x, h)
    requires Tokens(st', r, k) == Tokens(st, r, k) || (Tokens(st', r, k) <= Tokens(st, r, k) && !Live(st, r))
    ensures TokensMatch(st')
  {
    forall x, h | x in st'.nodes
      ensures Tokens(st', x, h) <= Bit(h in st'.nodes[x].flags)
      ensures Live(st', x) ==> Tokens(st', x, h) == Bit(h in st'.nodes[x].flags)
    {
      assert Tokens(st, x, h) <= Bit(h in st.nodes[x].flags);
    }
  }

  /** A step that touches only the queue, the workers and the mailboxes. */
  lemma QueueChanges(st: System, st': System)
    requires Known(st) && Current(st)
    requires st'.nodes.Keys == st.nodes.Keys && st'.clusters == st.clusters && st'.reading == st.reading
    requires st'.pool.nodes == st.pool.nodes
    requires forall i :: 0 <= i < |st'.workers| && !st'.workers[i].Idle? ==> st'.workers[i].job.node in st.nodes
    requires forall i :: 0 <= i < |st'.pool.pending| ==>
      st'.pool.pending[i] in st.pool.pending
      || (st'.pool.pending[i].node in st.nodes && st'.pool.pending[i].node.cluster in st.pool.nodes
          && st.pool.nodes[st'.pool.pending[i].node.cluster] == st'.pool.pending[i].node)
    ensures Known(st') && Current(st')
  {
    assert forall x :: Live(st', x) == Live(st, x);
  }

  lemma TakeTokens(st: System, c: nat, k: Kind)
    requires Inv(st) && Enabled(st, TakeRequest(c, k))
    ensures TokensMatch(Next(st, TakeRequest(c, k)))
  {
    hide TokensMatch, LoadsMatch, BooksMatch, Count, Known, Current, NodesOk;
    TokenMoves(st, Next(st, TakeRequest(c, k)), st.pool.nodes[c], k);
  }

  lemma TakeInv(st: System, c: nat, k: Kind)
    requires Inv(st) && Enabled(st, TakeRequest(c, k))
    ensures Inv(Next(st, TakeRequest(c, k)))
  {
    hide TokensMatch, LoadsMatch, BooksMatch, Current;
    var st' := Next(st, TakeRequest(c, k));
    TakeTokens(st, c, k);
    QueueChanges(st, st');
    SameBooks(st.pool, st'.pool, st.workers);
    SameLoads(st.pool, st'.pool, st.workers);
  }

  lemma SameLoads(p: Pool, p': Pool, ws: seq<Worker>)
    requires LoadsMatch(p, ws) && p'.nodes == p.nodes && p'.loads == p.loads
    ensures LoadsMatch(p', ws)
  {
    assert forall r :: Load(p', r) == Load(p, r);
  }

  lemma RemoveAtCounts(s: seq<Job>, i: nat)
    requires i < |s|
    ensures multiset(RemoveAt(s, i)) == multiset(s) - multiset{s[i]}
    ensures forall k :: 0 <= k < |RemoveAt(s, i)| ==> RemoveAt(s, i)[k] in s
  {
    assert s == s[..i] + [s[i]] + s[i + 1..];
  }

  /** A dropped job belonged to a node the host has stopped. */
  lemma DropTokens(st: System)
    requires Inv(st) && Enabled(st, Schedule) && ScheduleWorker(st.pool, |st.workers|).Dropped?
    ensures TokensMatch(Next(st, Schedule))
  {
    hide TokensMatch, LoadsMatch, BooksMatch, Count, NodesOk;
    var i := FirstActionable(st.pool, 0).value;
    var j := st.pool.pending[i];
    RemoveAtCounts(st.pool.pending, i);
    assert !Live(st, j.node);
    TokenMoves(st, Next(st, Schedule), j.node, j.kind);
  }

  lemma DropInv(st: System)
    requires Inv(st) && Enabled(st, Schedule) && ScheduleWorker(st.pool, |st.workers|).Dropped?
    ensures Inv(Next(st, Schedule))
  {
    hide TokensMatch, LoadsMatch, BooksMatch, Current, NodeOk;
    var st' := Next(st, Schedule);
    DropTokens(st);
    QueueChanges(st, st');
    SameBooks(st.pool, st'.pool, st.workers);
    SameLoads(st.pool, st'.pool, st.workers);
  }

  lemma SendCounts(ws: seq<Worker>, j: Job, w: nat)
    requires w < |ws| && ws[w].Idle?
    ensures forall k, c ::
              Count(ws[w := Requested(j)], Engaged(k, c))
              == Count(ws, Engaged(k, c)) + Bit(k == j.kind && c == j.node.cluster)
  {
    hide Count;
    forall k, c ensures Count(ws[w := Requested(j)], Engaged(k, c))
      == Count(ws, Engaged(k, c)) + Bit(k == j.kind && c == j.node.cluster) {
      CountUpdate(ws, w, Requested(j), Engaged(k, c));
    }
  }

  lemma SendStreamBooks(p: Pool, ws: seq<Worker>, j: Job, w: nat)
    requires BooksMatch(p, ws) && w < |ws| && ws[w].Idle? && CanSchedule(p, j) && j.kind == Stream
    ensures !StartJob(p, j, j.node, w).panicked
    ensures BooksMatch(StartJob(p, j, j.node, w).pool, ws[w := Requested(j)])
  {
    hide Count;
    SendCounts(ws, j, w);
  }

  lemma SendOtherBooks(p: Pool, ws: seq<Worker>, j: Job, w: nat)
    requires BooksMatch(p, ws) && w < |ws| && ws[w].Idle? && CanSchedule(p, j) && j.kind != Stream
    ensures !StartJob(p, j, j.node, w).panicked
    ensures BooksMatch(StartJob(p, j, j.node, w).pool, ws[w := Requested(j)])
  {
    hide Count;
    SendCounts(ws, j, w);
  }

  lemma SendBooks(p: Pool, ws: seq<Worker>, j: Job, w: nat)
    requires BooksMatch(p, ws) && w < |ws| && ws[w].Idle? && CanSchedule(p, j)
    ensures !StartJob(p, j, j.node, w).panicked
    ensures BooksMatch(StartJob(p, j, j.node, w).pool, ws[w := Requested(j)])
  {
    hide BooksMatch, StartJob, CanSchedule;
    if j.kind == Stream {
      SendStreamBooks(p, ws, j, w);
    } else {
      SendOtherBooks(p, ws, j, w);
    }
  }

  lemma StartFrame(p: Pool, j: Job, n: Ref, w: nat)
    ensures var q := StartJob(p, j, n, w).pool; q.nodes == p.nodes && q.pending == p.pending
  {
  }

  lemma SendLoads(p: Pool, ws: seq<Worker>, j: Job, w: nat)
    requires LoadsMatch(p, ws) && w < |ws| && ws[w].Idle?
    ensures LoadsMatch(StartJob(p, j, j.node, w).pool, ws[w := Requested(j)])
  {
    hide Count;
    var q := StartJob(p, j, j.node, w).pool;
    forall r ensures Load(q, r) == Bit(r.cluster in q.nodes && q.nodes[r.cluster] == r)
      + Count(ws[w := Requested(j)], Using(r)) {
      assert Load(p, r) == Bit(r.cluster in p.nodes && p.nodes[r.cluster] == r) + Count(ws, Using(r));
      CountUpdate(ws, w, Requested(j), Using(r));
    }
  }

  /** The scheduler finds the job's own node in the pool and an idle worker. */
  lemma SendFacts(st: System)
    requires Inv(st) && Enabled(st, Schedule) && ScheduleWorker(st.pool, |st.workers|).Sent?
    ensures var (o, w, j) := (ScheduleWorker(st.pool, |st.workers|).outcome,
      ScheduleWorker(st.pool, |st.workers|).worker,
                              ScheduleWorker(st.pool, |st.workers|).job);
            && w < |st.workers| && st.workers[w].Idle? && j in st.pool.pending && j.node in st.nodes
              && CanSchedule(st.pool, j)
            && FirstActionable(st.pool, 0).Some?
            && var i := FirstActionable(st.pool, 0).value;
               && i < |st.pool.pending| && j == st.pool.pending[i]
               && var started := StartJob(st.pool, j, j.node, w);
                  o == started.(pool := started.pool.(pending := RemoveAt(st.pool.pending, i)))
  {
    hide TokensMatch, LoadsMatch, Current, NodesOk, Count, StartJob, CanSchedule;
  }

  lemma SendTokens(st: System)
    requires Inv(st) && Enabled(st, Schedule) && ScheduleWorker(st.pool, |st.workers|).Sent?
    ensures TokensMatch(Next(st, Schedule))
  {
    hide TokensMatch, LoadsMatch, BooksMatch, Count, NodesOk, Known, Current, ScheduleWorker, CanSchedule;
    SendFacts(st);
    var st' := Next(st, Schedule);
    var sent := ScheduleWorker(st.pool, |st.workers|);
    var j := sent.job;
    RemoveAtCounts(st.pool.pending, FirstActionable(st.pool, 0).value);
    forall q: Query ensures Count(st'.workers, q) == Count(st.workers, q) + Bit(Matches(Requested(j), q)) {
      CountUpdate(st.workers, sent.worker, Requested(j), q);
    }
    TokenMoves(st, st', j.node, j.kind);
  }

  lemma SendInv(st: System)
    requires Inv(st) && Enabled(st, Schedule) && ScheduleWorker(st.pool, |st.workers|).Sent?
    ensures Inv(Next(st, Schedule))
  {
    hide TokensMatch, LoadsMatch, BooksMatch, Current, NodeOk, ScheduleWorker, CanSchedule, Count, StartJob;
    SendFacts(st);
    SendTokens(st);
    var st' := Next(st, Schedule);
    var sent := ScheduleWorker(st.pool, |st.workers|);
    var p := StartJob(st.pool, sent.job, sent.job.node, sent.worker).pool;
    StartFrame(st.pool, sent.job, sent.job.node, sent.worker);
    SendBooks(st.pool, st.workers, sent.job, sent.worker);
    SendLoads(st.pool, st.workers, sent.job, sent.worker);
    SameBooks(p, st'.pool, st'.workers);
    SameLoads(p, st'.pool, st'.workers);
    RemoveAtCounts(st.pool.pending, FirstActionable(st.pool, 0).value);
    QueueChanges(st, st');
  }

  /** A worker's step leaves its job, its books and its loads alone. */
  lemma WorkerBooks(p: Pool, ws: seq<Worker>, w: nat, x: Worker)
    requires BooksMatch(p, ws) && LoadsMatch(p, ws) && w < |ws| && !ws[w].Idle? && !x.Idle? && x.job == ws[w].job
    ensures BooksMatch(p, ws[w := x]) && LoadsMatch(p, ws[w := x])
  {
    hide Count;
    forall k, c ensures Count(ws[w := x], Engaged(k, c)) == Count(ws, Engaged(k, c)) {
      CountUpdate(ws, w, x, Engaged(k, c));
    }
    forall r ensures Count(ws[w := x], Using(r)) == Count(ws, Using(r)) {
      CountUpdate(ws, w, x, Using(r));
    }
  }

  /** The worker picks up its request, or returns from the node's method and looks whether the node is
      initialized. */
  lemma WorkerAdvances(st: System, step: Step)
    requires Inv(st) && Enabled(st, step) && (step.WorkerBegins? || step.WorkerReturns?)
    ensures Inv(Next(st, step))
  {
    hide TokensMatch, LoadsMatch, BooksMatch, Current, NodeOk, Count;
    var st' := Next(st, step);
    var w := step.worker;
    WorkerBooks(st.pool, st.workers, w, st'.workers[w]);
    QueueChanges(st, st');
    forall q: Query ensures Count(st'.workers, q) == Count(st.workers, q) || !q.Carrying? {
      CountUpdate(st.workers, w, st'.workers[w], q);
    }
    var j := st.workers[w].job;
    TokenMoves(st, st', j.node, j.kind);
  }

  lemma NotifyTokens(st: System, w: nat)
    requires Inv(st) && Enabled(st, WorkerNotifies(w))
    ensures TokensMatch(Next(st, WorkerNotifies(w))) && !Next(st, WorkerNotifies(w)).panicked
  {
    hide LoadsMatch, BooksMatch, Current, NodeOk, Count, Known;
    var st' := Next(st, WorkerNotifies(w));
    var j := st.workers[w].job;
    CountPositive(st.workers, Carrying(j), w);
    assert Tokens(st, j.node, j.kind) <= Bit(j.kind in st.nodes[j.node].flags);
    forall q: Query ensures q.Carrying? ==> Count(st'.workers, q) == Count(st.workers, q) - Bit(q.job == j) {
      CountUpdate(st.workers, w, Finished(j), q);
    }
    TokenMoves(st, st', j.node, j.kind);
  }

  lemma NotifyInv(st: System, w: nat)
    requires Inv(st) && Enabled(st, WorkerNotifies(w))
    ensures Inv(Next(st, WorkerNotifies(w)))
  {
    hide TokensMatch, LoadsMatch, BooksMatch, Current, Count;
    var st' := Next(st, WorkerNotifies(w));
    NotifyTokens(st, w);
    WorkerBooks(st.pool, st.workers, w, st'.workers[w]);
    QueueChanges(st, st');
  }

  lemma CompleteBooks(p: Pool, ws: seq<Worker>, w: nat)
    requires BooksMatch(p, ws) && w < |ws| && !ws[w].Idle?
    ensures !CompleteJob(p, w).panicked
    ensures BooksMatch(CompleteJob(p, w).pool, ws[w := Idle])
  {
    hide Count;
    var j := ws[w].job;
    CountPositive(ws, Engaged(j.kind, j.node.cluster), w);
    assert Bit(j.node.cluster in p.saving) >= Bit(j.kind == Save);
    forall k, c ensures Count(ws[w := Idle], Engaged(k, c))
      == Count(ws, Engaged(k, c)) - Bit(k == j.kind && c == j.node.cluster) {
      CountUpdate(ws, w, Idle, Engaged(k, c));
    }
  }

  lemma CompleteLoads(p: Pool, ws: seq<Worker>, w: nat)
    requires BooksMatch(p, ws) && LoadsMatch(p, ws) && w < |ws| && !ws[w].Idle?
    ensures LoadsMatch(CompleteJob(p, w).pool, ws[w := Idle])
  {
    hide Count;
    var q := CompleteJob(p, w).pool;
    forall r ensures Load(q, r) == Bit(r.cluster in q.nodes && q.nodes[r.cluster] == r)
      + Count(ws[w := Idle], Using(r)) {
      assert Load(p, r) == Bit(r.cluster in p.nodes && p.nodes[r.cluster] == r) + Count(ws, Using(r));
      CountUpdate(ws, w, Idle, Using(r));
    }
  }

  lemma CompletionInv(st: System, w: nat)
    requires Inv(st) && Enabled(st, Completion(w))
    ensures Inv(Next(st, Completion(w)))
  {
    hide TokensMatch, LoadsMatch, BooksMatch, Current, NodeOk, Count;
    var st' := Next(st, Completion(w));
    CompleteBooks(st.pool, st.workers, w);
    CompleteLoads(st.pool, st.workers, w);
    QueueChanges(st, st');
    forall q: Query ensures Count(st'.workers, q) == Count(st.workers, q) || !q.Carrying? {
      CountUpdate(st.workers, w, Idle, q);
    }
    var j := st.workers[w].job;
    TokenMoves(st, st', j.node, j.kind);
  }

  // ---- Every run ----------------------------------------------------------------------------------

  lemma StepInv(st: System, step: Step)
    requires Inv(st) && Enabled(st, step) && !Overtakes(st, step)
    ensures Inv(Next(st, step))
  {
    hide Inv, Next, Overtakes;
    match step
    case StartCluster(r, onDisk, concurrent) => StartInv(st, r, onDisk, concurrent);
    case StopCluster(c) => StopInv(st, c);
    case ApplyStep(r, task, canStream) => ApplyInv(st, r, task, canStream);
    case ReadClusters => ReadInv(st);
    case AdoptClusters => AdoptInv(st);
    case TakeRequest(c, k) => TakeInv(st, c, k);
    case Schedule =>
      if ScheduleWorker(st.pool, |st.workers|).Dropped? {
        DropInv(st);
      } else {
        SendInv(st);
      }
    case WorkerBegins(w) => WorkerAdvances(st, step);
    case WorkerReturns(w) => WorkerAdvances(st, step);
    case WorkerNotifies(w) => NotifyInv(st, w);
    case Completion(w) => CompletionInv(st, w);
  }

  /** No restart in the run overtakes the pool between reading the host's map and adopting it. */
  predicate NeverOvertakes(count: nat, steps: seq<Step>) {
    steps != [] ==>
      var before := Run(count, steps[..|steps| - 1]);
      NeverOvertakes(count, steps[..|steps| - 1]) && (before.Some? ==> !Overtakes(before.value, steps[|steps| - 1]))
  }

  lemma {:induction false} RunInv(count: nat, steps: seq<Step>)
    requires Run(count, steps).Some? && NeverOvertakes(count, steps)
    ensures Inv(Run(count, steps).value)
  {
    hide Inv, Enabled, Next, Overtakes;
    if steps == [] {
      InitialInv(count);
    } else {
      RunInv(count, steps[..|steps| - 1]);
      StepInv(Run(count, steps[..|steps| - 1]).value, steps[|steps| - 1]);
    }
  }

  /** No assertion of the pipeline fails, and requests are neither duplicated nor lost: a node has at most
      one outstanding token of each kind, only while the flag is set, and, until the host stops the
      node, exactly one for as long as it is set. */
  lemma {:induction false} TokenDiscipline(count: nat, steps: seq<Step>, r: Ref, k: Kind)
    requires Run(count, steps).Some? && NeverOvertakes(count, steps)
    ensures var st := Run(count, steps).value;
            && !st.panicked
            && (r in st.nodes ==>
                  && Tokens(st, r, k) <= 1
                  && (Tokens(st, r, k) == 1 ==> k in st.nodes[r].flags)
                  && (Live(st, r) && k in st.nodes[r].flags ==> Tokens(st, r, k) == 1))
  {
    RunInv(count, steps);
    var st := Run(count, steps).value;
    if r in st.nodes {
      assert Tokens(st, r, k) <= Bit(k in st.nodes[r].flags);
    }
  }

  function Users(busy: map<nat, Ref>, r: Ref): set<nat> {
    set w | w in busy && busy[w] == r
  }

  /** The number of busy workers that use a node, from the pool's own map. */
  lemma {:induction false} UsersCount(busy: map<nat, Ref>, ws: seq<Worker>, r: Ref)
    requires forall w: nat :: w in busy <==> w < |ws| && !ws[w].Idle?
    requires forall w: nat :: w in busy ==> busy[w] == ws[w].job.node
    ensures |Users(busy, r)| == Count(ws, Using(r))
    decreases |ws|
  {
    if ws != [] {
      var n: nat := |ws| - 1;
      UsersCount(busy - {n}, ws[..n], r);
      if n in Users(busy, r) {
        assert Users(busy, r) == Users(busy - {n}, r) + {n};
      } else {
        assert Users(busy, r) == Users(busy - {n}, r);
      }
    } else {
      assert Users(busy, r) == {};
    }
  }

  /** In every run: a cluster is in `saving` or `recovering` exactly when one busy worker does that job
      for it, `streaming` holds the number of busy workers streaming it, the three exclude each other,
      and each node has been loaded once for the pool's map and once for each busy use. */
  lemma {:induction false} PoolBooks(count: nat, steps: seq<Step>, c: nat, r: Ref)
    requires Run(count, steps).Some? && NeverOvertakes(count, steps)
    ensures var (p, ws) := (Run(count, steps).value.pool, Run(count, steps).value.workers);
            && Count(ws, Engaged(Save, c)) == Bit(c in p.saving)
            && Count(ws, Engaged(Recover, c)) == Bit(c in p.recovering)
            && Count(ws, Engaged(Stream, c)) == (if c in p.streaming then p.streaming[c] else 0)
            && Bit(c in p.saving) + Bit(c in p.recovering) + Bit(c in p.streaming) <= 1
            && Load(p, r) == Bit(r.cluster in p.nodes && p.nodes[r.cluster] == r) + |Users(p.busy, r)|
  {
    RunInv(count, steps);
    var st := Run(count, steps).value;
    UsersCount(st.pool.busy, st.workers, r);
    assert Load(st.pool, r) == Bit(r.cluster in st.pool.nodes && st.pool.nodes[r.cluster] == r)
      + Count(st.workers, Using(r));
  }

  // ---- The condition is exact -----------------------------------------------------------------------

  lemma RunNext(count: nat, steps: seq<Step>, step: Step)
    requires Run(count, steps).Some? && Enabled(Run(count, steps).value, step)
    ensures Run(count, steps + [step]) == Some(Next(Run(count, steps).value, step))
  {
    hide Enabled, Next;
    assert (steps + [step])[..|steps|] == steps;
  }

  /** The pool reads a map with another incarnation of a cluster it holds, adopts it, and panics. */
  lemma ReadingPanics(count: nat, steps: seq<Step>, c: nat)
    requires Run(count, steps).Some?
    requires var st := Run(count, steps).value;
             && !st.panicked && st.reading.None? && c in st.pool.nodes && c in st.clusters
             && st.pool.nodes[c].instance != st.clusters[c].instance
    ensures var end := Run(count, steps + ([ReadClusters] + [AdoptClusters])); end.Some? && end.value.panicked
  {
    hide AdoptLoads, Run;
    RunNext(count, steps, ReadClusters);
    RunNext(count, steps + [ReadClusters], AdoptClusters);
    Regroup(steps, [ReadClusters], [AdoptClusters]);
  }

  /** If a start overtakes the pool, then the pool, going on to read and adopt the host's map, meets two
      incarnations of the cluster and panics. */
  lemma {:induction false} OvertakingPanics(count: nat, steps: seq<Step>, step: Step) returns (more: seq<Step>)
    requires Run(count, steps).Some? && NeverOvertakes(count, steps)
    requires Enabled(Run(count, steps).value, step) && Overtakes(Run(count, steps).value, step)
    ensures var end := Run(count, steps + [step] + more); end.Some? && end.value.panicked
  {
    RunInv(count, steps);
    RunNext(count, steps, step);
    var (st, c) := (Run(count, steps).value, step.ref.cluster);
    OvertakenState(st, step);
    hide *;
    if st.reading.Some? {
      more := [AdoptClusters] + ([ReadClusters] + [AdoptClusters]);
      RunNext(count, steps + [step], AdoptClusters);
      ReadingPanics(count, steps + [step] + [AdoptClusters], c);
      Regroup(steps + [step], [AdoptClusters], [ReadClusters] + [AdoptClusters]);
    } else {
      more := [ReadClusters] + [AdoptClusters];
      ReadingPanics(count, steps + [step], c);
    }
  }

  lemma Regroup(a: seq<Step>, b: seq<Step>, c: seq<Step>)
    ensures a + b + c == a + (b + c)
  {
  }

  lemma OvertakenState(st: System, step: Step)
    requires Inv(st) && Enabled(st, step) && Overtakes(st, step)
    ensures var (st', c) := (Next(st, step), step.ref.cluster);
            && !st'.panicked && c in st'.clusters && st'.reading == st.reading
            && Held(st)[c].instance != st'.clusters[c].instance
            && (st.reading.None? ==> c in st'.pool.nodes && st'.pool.nodes[c] == Held(st)[c])
            && (st.reading.Some? ==>
                  && Enabled(st', AdoptClusters)
                  && var st2 := Next(st', AdoptClusters);
                     && !st2.panicked && st2.reading.None? && st2.clusters == st'.clusters
                     && c in st2.pool.nodes && st2.pool.nodes[c] == Held(st)[c])
  {
    hide TokensMatch, LoadsMatch, BooksMatch, NodesOk, AdoptLoads;
    assert Held(st)[step.ref.cluster] in st.nodes;
  }

  /** Runs can get there: a restart between the reading of the host's map and its adoption, and a start under
      another node id before the pool has let the stopped node go. */
  lemma OvertakingHappens(count: nat, c: nat, adopted: bool)
    ensures var steps := [StartCluster(Ref(c, 1, 1), true, true), ReadClusters]
                         + if adopted then [AdoptClusters, StopCluster(c)] else [StopCluster(c)];
            var restart := StartCluster(Ref(c, if adopted then 2 else 1, 2), true, true);
            && Run(count, steps).Some? && NeverOvertakes(count, steps)
            && Enabled(Run(count, steps).value, restart) && Overtakes(Run(count, steps).value, restart)
  {
    hide NeverOvertakes, AdoptLoads, Apply, ScheduleWorker, CompleteJob;
    var first := StartCluster(Ref(c, 1, 1), true, true);
    assert NeverOvertakes(count, []) by { NothingOvertakes(count); }
    RunSnoc(count, [], first);
    RunSnoc(count, [] + [first], ReadClusters);
    var steps := [] + [first] + [ReadClusters];
    if adopted {
      RunSnoc(count, steps, AdoptClusters);
      RunSnoc(count, steps + [AdoptClusters], StopCluster(c));
      assert steps + [AdoptClusters] + [StopCluster(c)] == [first, ReadClusters] + [AdoptClusters, StopCluster(c)];
    } else {
      RunSnoc(count, steps, StopCluster(c));
      assert steps + [StopCluster(c)] == [first, ReadClusters] + [StopCluster(c)];
    }
  }

  lemma NothingOvertakes(count: nat)
    ensures NeverOvertakes(count, [])
  {
  }

  lemma RunSnoc(count: nat, steps: seq<Step>, step: Step)
    requires Run(count, steps).Some? && NeverOvertakes(count, steps)
    requires Enabled(Run(count, steps).value, step) && !Overtakes(Run(count, steps).value, step)
    ensures Run(count, steps + [step]) == Some(Next(Run(count, steps).value, step))
    ensures NeverOvertakes(count, steps + [step])
  {
    hide Enabled, Next, Overtakes;
    assert (steps + [step])[..|steps|] == steps;
  }
}
