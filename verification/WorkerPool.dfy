/** The snapshot worker pool as the class that keeps the books, each method against its step of the
    pipeline. */
module WorkerPool {
  import opened Bytes
  import opened SnapshotPipeline

  datatype Round = Round(pool: Pool, sent: seq<(nat, Job)>, panicked: bool)

  /** schedule: one job after another until none can be dropped or started. */
  function ScheduleLoop(p: Pool, count: nat): Round
    decreases |p.pending|
  {
    match ScheduleWorker(p, count)
    case Nothing => Round(p, [], false)
    case Dropped(q) => ScheduleLoop(q, count)
    case Sent(o, w, j) =>
      if o.panicked then Round(o.pool, [(w, j)], true)
      else
        var r := ScheduleLoop(o.pool, count);
        r.(sent := [(w, j)] + r.sent)
  }

  class SnapshotPool {
    const workerCount: nat
    var nodes: map<nat, Ref>
    var pending: seq<Job>
    var busy: map<nat, Ref>
    var saving: set<nat>
    var recovering: set<nat>
    var streaming: map<nat, nat>
    /** Calls of loaded() less calls of offloaded(), per node. */
    var loads: map<Ref, int>

    constructor (workerCount: nat)
      ensures View() == Initial(workerCount).pool && this.workerCount == workerCount
    {
      this.workerCount := workerCount;
      nodes, pending, busy := map[], [], map[];
      saving, recovering, streaming, loads := {}, {}, map[], map[];
    }

    function View(): Pool
      reads this
    {
      Pool(nodes, pending, busy, saving, recovering, streaming, loads)
    }

    method GetWorker() returns (w: Option<nat>)
      ensures w == FirstIdle(busy, 0, workerCount)
    {
      var i := 0;
      while i < workerCount
        invariant 0 <= i <= workerCount
        invariant FirstIdle(busy, 0, workerCount) == FirstIdle(busy, i, workerCount)
      {
        if i !in busy {
          return Some(i);
        }
        i := i + 1;
      }
      return None;
    }

    method Loaded(n: Ref)
      modifies this`loads
      ensures View() == AddLoad(old(View()), n, 1)
    {
      loads := loads[n := Load(View(), n) + 1];
    }

    method Offloaded(n: Ref)
      modifies this`loads
      ensures View() == AddLoad(old(View()), n, -1)
    {
      loads := loads[n := Load(View(), n) - 1];
    }

    method Start(j: Job, n: Ref, w: nat) returns (panicked: bool)
      modifies this
      ensures Outcome(View(), panicked) == StartJob(old(View()), j, n, w)
    {
      panicked := w in busy;
      Loaded(n);
      busy := busy[w := n];
      match j.kind {
        case Recover =>
          panicked := panicked || n.cluster in recovering;
          recovering := recovering + {n.cluster};
        case Save =>
          panicked := panicked || n.cluster in saving;
          saving := saving + {n.cluster};
        case Stream =>
          var count := if n.cluster in streaming then streaming[n.cluster] else 0;
          streaming := streaming[n.cluster := count + 1];
      }
    }

    /** One pass over the pending jobs; `sent` is what goes into the chosen worker's channel. */
    method ScheduleOne() returns (progress: bool, sent: Option<(nat, Job)>, panicked: bool)
      modifies this
      ensures match ScheduleWorker(old(View()), workerCount)
              case Nothing => !progress && sent == None && !panicked && View() == old(View())
              case Dropped(p) => progress && sent == None && !panicked && View() == p
              case Sent(o, w, j) => progress && sent == Some((w, j)) && panicked == o.panicked && View() == o.pool
    {
      progress, sent, panicked := false, None, false;
      if |pending| == 0 {
        return;
      }
      var w := GetWorker();
      if w.None? {
        return;
      }
      var i := 0;
      while i < |pending|
        invariant 0 <= i <= |pending| && View() == old(View())
        invariant FirstActionable(View(), 0) == FirstActionable(View(), i)
      {
        var j := pending[i];
        if j.node.cluster !in nodes {
          pending := pending[..i] + pending[i + 1..];
          return true, None, false;
        }
        if CanSchedule(View(), j) {
          var n := nodes[j.node.cluster];
          if n.instance == j.node.instance {
            panicked := Start(j, n, w.value);
            sent := Some((w.value, j));
          }
          pending := pending[..i] + pending[i + 1..];
          return true, sent, panicked;
        }
        i := i + 1;
      }
    }

    method Completed(w: nat) returns (panicked: bool)
      modifies this
      ensures Outcome(View(), panicked) == CompleteJob(old(View()), w)
    {
      if w !in busy {
        return true;
      }
      var n := busy[w];
      var c := n.cluster;
      var count := 0;
      panicked := false;
      if c in saving {
        count := count + 1;
      }
      saving := saving - {c};
      if c in recovering {
        count := count + 1;
      }
      recovering := recovering - {c};
      if c in streaming {
        if streaming[c] == 0 {
          panicked := true;
        }
        if streaming[c] <= 1 {
          streaming := streaming - {c};
        } else {
          streaming := streaming[c := streaming[c] - 1];
        }
        count := count + 1;
      }
      panicked := panicked || count != 1;
      busy := busy - {w};
      Offloaded(n);
    }

    /** Runs until nothing more can start; returns what was sent, in order. */
    method ScheduleAll() returns (sent: seq<(nat, Job)>, panicked: bool)
      modifies this
      ensures Round(View(), sent, panicked) == ScheduleLoop(old(View()), workerCount)
      ensures ScheduleWorker(View(), workerCount) == Nothing || panicked
    {
      hide StartJob, CanSchedule;
      sent, panicked := [], false;
      var progress := true;
      while progress && !panicked
        invariant var r := ScheduleLoop(View(), workerCount);
                  ScheduleLoop(old(View()), workerCount)
                  == if panicked then Round(View(), sent, true) else Round(r.pool, sent + r.sent, r.panicked)
        invariant progress || panicked || ScheduleWorker(View(), workerCount) == Nothing
        decreases |pending|, progress
      {
        var one: Option<(nat, Job)>;
        progress, one, panicked := ScheduleOne();
        if one.Some? {
          sent := sent + [one.value];
        }
      }
    }

    /** The merged map, unless two incarnations of a cluster meet. */
    method Merge(hosted: map<nat, Ref>) returns (merged: Option<map<nat, Ref>>)
      ensures merged.None? <==> exists c :: c in hosted && c in nodes && hosted[c].instance != nodes[c].instance
      ensures merged.Some? ==> merged.value == Adopt(View(), hosted).pool.nodes
    {
      var newNodes: map<nat, Ref> := map[];
      var todo := hosted.Keys;
      while todo != {}
        invariant todo <= hosted.Keys && newNodes.Keys == hosted.Keys - todo
        invariant forall c :: c in newNodes ==>
          newNodes[c] == if c in nodes then nodes[c] else hosted[c]
        invariant forall c :: c in newNodes && c in nodes ==> nodes[c].instance == hosted[c].instance
        decreases |todo|
      {
        var c :| c in todo;
        if c in nodes {
          if nodes[c].instance != hosted[c].instance {
            return None;
          }
          newNodes := newNodes[c := nodes[c]];
        } else {
          newNodes := newNodes[c := hosted[c]];
        }
        todo := todo - {c};
      }
      return Some(newNodes);
    }

    /** The pool adopts the host's clusters: it loads what is new and offloads what is gone. */
    method LoadNodes(hosted: map<nat, Ref>) returns (panicked: bool)
      requires Filed(nodes) && Filed(hosted)
      modifies this`nodes, this`loads
      ensures panicked == Adopt(old(View()), hosted).panicked
      ensures !panicked ==> nodes == Adopt(old(View()), hosted).pool.nodes && nodes.Keys == hosted.Keys && Filed(nodes)
      ensures !panicked ==> forall c :: c in hosted ==> nodes[c].instance == hosted[c].instance
      ensures !panicked ==> forall r :: Load(View(), r) == Load(Adopt(old(View()), hosted).pool, r)
    {
      hide AdoptLoads;
      ghost var before := View();
      var merged := Merge(hosted);
      if merged.None? {
        return true;
      }
      OffloadAll(nodes.Keys - hosted.Keys);
      LoadAll(merged.value, hosted.Keys - nodes.Keys);
      nodes := merged.value;
      forall r ensures Load(View(), r) == Load(Adopt(before, hosted).pool, r) {
        AdoptLoadAt(before, hosted, r);
      }
      return false;
    }

    method OffloadAll(cs: set<nat>)
      requires Filed(nodes) && cs <= nodes.Keys
      modifies this`loads
      ensures forall r :: Load(View(), r) == old(Load(View(), r)) - Bit(r.cluster in cs && nodes[r.cluster] == r)
    {
      var todo := cs;
      while todo != {}
        invariant todo <= cs
        invariant forall r ::
          Load(View(), r) == old(Load(View(), r)) - Bit(r.cluster in cs - todo && nodes[r.cluster] == r)
        decreases |todo|
      {
        var c :| c in todo;
        Offloaded(nodes[c]);
        todo := todo - {c};
      }
    }

    method LoadAll(hosted: map<nat, Ref>, cs: set<nat>)
      requires Filed(hosted) && cs <= hosted.Keys
      modifies this`loads
      ensures forall r :: Load(View(), r) == old(Load(View(), r)) + Bit(r.cluster in cs && hosted[r.cluster] == r)
    {
      var todo := cs;
      while todo != {}
        invariant todo <= cs
        invariant forall r ::
          Load(View(), r) == old(Load(View(), r)) + Bit(r.cluster in cs - todo && hosted[r.cluster] == r)
        decreases |todo|
      {
        var c :| c in todo;
        Loaded(hosted[c]);
        todo := todo - {c};
      }
    }

    /** Stopping: one offload for each node in the map and one for each busy worker brings every load of
        a pool whose books match back to zero. */
    method UnloadNodes()
      requires Filed(nodes)
      requires forall r :: Load(View(), r) == Bit(r.cluster in nodes && nodes[r.cluster] == r) + |Users(busy, r)|
      modifies this`loads
      ensures forall r :: Load(View(), r) == 0
    {
      OffloadAll(nodes.Keys);
      var rest := busy;
      while rest.Keys != {}
        invariant forall r :: Load(View(), r) == |Users(rest, r)|
        decreases |rest.Keys|
      {
        var w :| w in rest.Keys;
        UsersWithout(rest, w);
        Offloaded(rest[w]);
        rest := rest - {w};
      }
      forall r ensures |Users(rest, r)| == 0 {
        assert Users(rest, r) == {};
      }
    }
  }

  /** Every node is filed under its own cluster. */
  predicate Filed(nodes: map<nat, Ref>) {
    forall c :: c in nodes ==> nodes[c].cluster == c
  }

  lemma AdoptLoadAt(p: Pool, hosted: map<nat, Ref>, r: Ref)
    ensures Load(Adopt(p, hosted).pool, r)
         == Load(p, r) + Bit(r.cluster in hosted && hosted[r.cluster] == r && r.cluster !in p.nodes)
            - Bit(r.cluster in p.nodes && p.nodes[r.cluster] == r && r.cluster !in hosted)
  {
    if r !in p.loads.Keys + p.nodes.Values + hosted.Values {
      assert !(r.cluster in hosted && hosted[r.cluster] == r) && !(r.cluster in p.nodes && p.nodes[r.cluster] == r);
    }
  }

  lemma UsersWithout(busy: map<nat, Ref>, w: nat)
    requires w in busy
    ensures forall r :: |Users(busy, r)| == |Users(busy - {w}, r)| + Bit(busy[w] == r)
  {
    forall r ensures |Users(busy, r)| == |Users(busy - {w}, r)| + Bit(busy[w] == r) {
      if busy[w] == r {
        assert Users(busy, r) == Users(busy - {w}, r) + {w};
      } else {
        assert Users(busy, r) == Users(busy - {w}, r);
      }
    }
  }
}
