/** Waking workers: producers mark clusters in a worker's ready map and put a token in its channel;
    the worker takes the token, clears its spare map and swaps the two maps. No wake-up and no mark
    is lost, whatever the interleaving. */
module WorkReady {
  import opened Bytes

  /** A worker's two ready maps; `current` is the one `ready` refers to, `index` an 8-bit counter. */
  datatype Ready = Ready(maps: seq<set<nat>>, current: nat, index: nat)

  datatype Consumer = Waiting | Awake | Cleared

  /** One partition: its maps, its channel of capacity one and its consumer. `owed` are the clusters
      marked since the consumer last took a map, `taken` the map it took. */
  datatype Partition = Partition(ready: Ready, token: bool, consumer: Consumer, owed: set<nat>, taken: set<nat>)

  /** A call that marks its clusters one by one and then notifies their partitions, each once. The batch
      forms remember notified partitions in a 64-bit bitmap. */
  datatype Producer = Producer(clusters: seq<nat>, marked: nat, visited: nat, notified: set<nat>, bitmap: bool)

  datatype System = System(partitions: seq<Partition>, producers: seq<Producer>, panicked: bool)

  /** The fixed partitioner. */
  function Home(count: nat, cluster: nat): (q: nat)
    requires count > 0
    ensures q < count
  {
    cluster % count
  }

  // ---- Marking and taking -------------------------------------------------------------------------

  predicate WellFormed(r: Ready) {
    |r.maps| == 2 && r.current < 2 && r.index < 256
  }

  function Mark(r: Ready, cluster: nat): Ready
    requires WellFormed(r)
  {
    r.(maps := r.maps[r.current := r.maps[r.current] + {cluster}])
  }

  function Spare(r: Ready): nat { (r.index + 1) % 256 % 2 }

  function ClearSpare(r: Ready): Ready
    requires WellFormed(r)
  {
    r.(maps := r.maps[Spare(r) := {}])
  }

  function Swap(r: Ready): Ready
    requires WellFormed(r)
  {
    var index := (r.index + 1) % 256;
    r.(index := index, current := index % 2)
  }

  /** getReadyClusters, as the object that is shared. */
  class ReadyCluster {
    var maps: seq<set<nat>>
    var current: nat
    var index: nat

    function View(): Ready
      reads this
    {
      Ready(maps, current, index)
    }

    constructor ()
      ensures View() == NEW_READY
    {
      maps, current, index := [{}, {}], 0, 0;
    }

    method SetClusterReady(cluster: nat)
      requires WellFormed(View())
      modifies this`maps
      ensures View() == Mark(old(View()), cluster)
    {
      maps := maps[current := maps[current] + {cluster}];
    }

    /** Undisturbed, it returns what has been marked and leaves an empty map in its place. */
    method GetReadyClusters() returns (v: set<nat>)
      requires WellFormed(View()) && current == index % 2
      modifies this
      ensures View() == Swap(ClearSpare(old(View())))
      ensures v == old(maps[current]) && maps[current] == {} && current == index % 2
    {
      var spare := (index + 1) % 256 % 2;
      var m := maps[spare];
      while m != {}
        decreases |m|
      {
        var k :| k in m;
        m := m - {k};
      }
      maps := maps[spare := m];
      v := maps[current];
      index := (index + 1) % 256;
      current := index % 2;
    }
  }

  const NEW_READY: Ready := Ready([{}, {}], 0, 0)

  // ---- Steps --------------------------------------------------------------------------------------

  datatype Step =
    | Call(clusters: seq<nat>, bitmap: bool)
    | MarkNext(producer: nat)
    | NotifyNext(producer: nat)
    | TakeToken(partition: nat)
    | ClearMap(partition: nat)
    | SwapMaps(partition: nat)

  predicate Enabled(st: System, step: Step) {
    !st.panicked && st.partitions != []
      && (forall q :: 0 <= q < |st.partitions| ==> WellFormed(st.partitions[q].ready)) &&
    match step
    case Call(_, _) => true
    case MarkNext(p) => p < |st.producers| && st.producers[p].marked < |st.producers[p].clusters|
    case NotifyNext(p) =>
      p < |st.producers| && st.producers[p].marked == |st.producers[p].clusters|
        && st.producers[p].visited < st.producers[p].marked
    case TakeToken(q) => q < |st.partitions| && st.partitions[q].token && st.partitions[q].consumer == Waiting
    case ClearMap(q) => q < |st.partitions| && st.partitions[q].consumer == Awake
    case SwapMaps(q) => q < |st.partitions| && st.partitions[q].consumer == Cleared
  }

  function Next(st: System, step: Step): System
    requires Enabled(st, step)
  {
    match step
    case Call(clusters, bitmap) => st.(producers := st.producers + [Producer(clusters, 0, 0, {}, bitmap)])
    case MarkNext(p) =>
      var pr := st.producers[p];
      var c := pr.clusters[pr.marked];
      var q := Home(|st.partitions|, c);
      var part := st.partitions[q];
      st.(producers := st.producers[p := pr.(marked := pr.marked + 1)],
          partitions := st.partitions[q := part.(ready := Mark(part.ready, c), owed := part.owed + {c})])
    case NotifyNext(p) =>
      var pr := st.producers[p];
      var q := Home(|st.partitions|, pr.clusters[pr.visited]);
      if pr.bitmap && q >= 64 then st.(panicked := true)
      else
        st.(producers := st.producers[p := pr.(visited := pr.visited + 1, notified := pr.notified + {q})],
            partitions := if q in pr.notified then st.partitions
              else st.partitions[q := st.partitions[q].(token := true)])
    case TakeToken(q) => st.(partitions := st.partitions[q := st.partitions[q].(token := false, consumer := Awake)])
    case ClearMap(q) =>
      st.(partitions := st.partitions[q :=
        st.partitions[q].(ready := ClearSpare(st.partitions[q].ready), consumer := Cleared)])
    case SwapMaps(q) =>
      var part := st.partitions[q];
      st.(partitions := st.partitions[q :=
        Partition(Swap(part.ready), part.token, Waiting, {}, part.ready.maps[part.ready.current])])
  }

  function Initial(count: nat): System {
    System(seq(count, _ => Partition(NEW_READY, false, Waiting, {}, {})), [], false)
  }

  // ---- The invariant ------------------------------------------------------------------------------

  /** A producer has marked a cluster of the partition and will still notify it. */
  predicate WillNotify(st: System, p: Producer, q: nat)
    requires st.partitions != []
  {
    p.marked <= |p.clusters| && q !in p.notified && exists i ::
      p.visited <= i < p.marked && Home(|st.partitions|, p.clusters[i]) == q
  }

  /** The marks of a partition are on their way to its consumer. */
  predicate WakeupPending(st: System, q: nat)
    requires q < |st.partitions|
  {
    || st.partitions[q].token || st.partitions[q].consumer != Waiting
    || exists p :: 0 <= p < |st.producers| && WillNotify(st, st.producers[p], q)
  }

  predicate PartitionOk(p: Partition) {
    && WellFormed(p.ready) && p.ready.current == p.ready.index % 2
    && p.ready.maps[p.ready.current] == p.owed
    && (p.consumer == Cleared ==> p.ready.maps[Spare(p.ready)] == {})
  }

  /** The partitions of a batch call fit the bitmap. */
  predicate Fits(count: nat, clusters: seq<nat>, bitmap: bool)
    requires count > 0
  {
    bitmap ==> forall i :: 0 <= i < |clusters| ==> Home(count, clusters[i]) < 64
  }

  predicate ProducerOk(st: System, p: Producer)
    requires st.partitions != []
  {
    && p.visited <= p.marked <= |p.clusters| && (p.visited > 0 ==> p.marked == |p.clusters|)
    && (forall i :: 0 <= i < p.visited ==> Home(|st.partitions|, p.clusters[i]) in p.notified)
    && (p.notified != {} ==> p.visited > 0)
    && Fits(|st.partitions|, p.clusters, p.bitmap)
  }

  predicate Inv(st: System) {
    && st.partitions != [] && !st.panicked
    && (forall q :: 0 <= q < |st.partitions| ==> PartitionOk(st.partitions[q]))
    && (forall p :: 0 <= p < |st.producers| ==> ProducerOk(st, st.producers[p]))
    && (forall q :: 0 <= q < |st.partitions| && st.partitions[q].owed != {} ==> WakeupPending(st, q))
  }

  function Run(count: nat, steps: seq<Step>): Option<System> {
    if steps == [] then Some(Initial(count))
    else
      var before := Run(count, steps[..|steps| - 1]);
      if before.Some? && Enabled(before.value, steps[|steps| - 1])
      then Some(Next(before.value, steps[|steps| - 1])) else None
  }

  /** A pending wake-up stays pending while its producer keeps what it will do. */
  lemma StillPending(st: System, st': System, q: nat)
    requires q < |st.partitions| && |st'.partitions| == |st.partitions| && WakeupPending(st, q)
    requires st.partitions[q].token ==> st'.partitions[q].token || st'.partitions[q].consumer != Waiting
    requires st.partitions[q].consumer != Waiting ==> st'.partitions[q].consumer != Waiting
    requires |st.producers| <= |st'.producers|
    requires forall p :: 0 <= p < |st.producers| && WillNotify(st, st.producers[p], q) ==>
      st'.partitions[q].token || WillNotify(st', st'.producers[p], q)
    ensures WakeupPending(st', q)
  {
    if !st.partitions[q].token && st.partitions[q].consumer == Waiting {
      var p :| 0 <= p < |st.producers| && WillNotify(st, st.producers[p], q);
      assert st'.partitions[q].token || WillNotify(st', st'.producers[p], q);
    }
  }

  lemma MarkInv(st: System, p: nat)
    requires Inv(st) && Enabled(st, MarkNext(p))
    ensures Inv(Next(st, MarkNext(p)))
  {
    hide Home;
    var st' := Next(st, MarkNext(p));
    var pr, pr' := st.producers[p], st'.producers[p];
    assert ProducerOk(st, pr);
    var home := Home(|st.partitions|, pr.clusters[pr.marked]);
    forall q: nat | q < |st'.partitions| && st'.partitions[q].owed != {} ensures WakeupPending(st', q) {
      if q == home {
        assert WillNotify(st', pr', q);
      } else {
        forall x | 0 <= x < |st.producers| && WillNotify(st, st.producers[x], q)
          ensures WillNotify(st', st'.producers[x], q) {
          var i :| st.producers[x].visited <= i < st.producers[x].marked
            && Home(|st.partitions|, st.producers[x].clusters[i]) == q;
          assert Home(|st'.partitions|, st'.producers[x].clusters[i]) == q;
        }
        StillPending(st, st', q);
      }
    }
  }

  lemma NotifyInv(st: System, p: nat)
    requires Inv(st) && Enabled(st, NotifyNext(p))
    ensures Inv(Next(st, NotifyNext(p)))
  {
    var st' := Next(st, NotifyNext(p));
    var pr := st.producers[p];
    assert ProducerOk(st, pr);
    var home := Home(|st.partitions|, pr.clusters[pr.visited]);
    forall q: nat | q < |st'.partitions| && st'.partitions[q].owed != {} ensures WakeupPending(st', q) {
      forall x | 0 <= x < |st.producers| && WillNotify(st, st.producers[x], q)
        ensures st'.partitions[q].token || WillNotify(st', st'.producers[x], q)
      {
        var i :| st.producers[x].visited <= i < st.producers[x].marked
          && Home(|st.partitions|, st.producers[x].clusters[i]) == q;
        assert Home(|st'.partitions|, st'.producers[x].clusters[i]) == q;
      }
      StillPending(st, st', q);
    }
  }

  lemma ConsumeInv(st: System, step: Step)
    requires Inv(st) && Enabled(st, step) && (step.TakeToken? || step.ClearMap? || step.SwapMaps?)
    ensures Inv(Next(st, step))
  {
    var st' := Next(st, step);
    forall q: nat | q < |st'.partitions| && st'.partitions[q].owed != {} ensures WakeupPending(st', q) {
      SameProducers(st, st', q);
      StillPending(st, st', q);
    }
  }

  lemma SameProducers(st: System, st': System, q: nat)
    requires st.partitions != [] && |st'.partitions| == |st.partitions| && st.producers <= st'.producers
    ensures forall p :: 0 <= p < |st.producers| && WillNotify(st, st.producers[p], q) ==>
      WillNotify(st', st'.producers[p], q)
  {
    forall p | 0 <= p < |st.producers| && WillNotify(st, st.producers[p], q)
      ensures WillNotify(st', st'.producers[p], q) {
      var i :| st.producers[p].visited <= i < st.producers[p].marked
        && Home(|st.partitions|, st.producers[p].clusters[i]) == q;
      assert Home(|st'.partitions|, st'.producers[p].clusters[i]) == q;
    }
  }

  lemma CallInv(st: System, clusters: seq<nat>, bitmap: bool)
    requires Inv(st) && Enabled(st, Call(clusters, bitmap)) && Fits(|st.partitions|, clusters, bitmap)
    ensures Inv(Next(st, Call(clusters, bitmap)))
  {
    var st' := Next(st, Call(clusters, bitmap));
    forall q: nat | q < |st'.partitions| && st'.partitions[q].owed != {} ensures WakeupPending(st', q) {
      SameProducers(st, st', q);
      StillPending(st, st', q);
    }
  }

  /** All batch calls fit the bitmap. */
  predicate Narrow(count: nat, steps: seq<Step>)
    requires count > 0
  {
    forall i :: 0 <= i < |steps| && steps[i].Call? ==> Fits(count, steps[i].clusters, steps[i].bitmap)
  }

  lemma {:induction false} RunInv(count: nat, steps: seq<Step>)
    requires count > 0 && Run(count, steps).Some? && Narrow(count, steps)
    ensures Inv(Run(count, steps).value) && |Run(count, steps).value.partitions| == count
  {
    hide Inv, Enabled, Next;
    if steps == [] {
      assert Inv(Initial(count)) by { InitialInv(count); }
    } else {
      var front, step := steps[..|steps| - 1], steps[|steps| - 1];
      assert Narrow(count, front);
      RunInv(count, front);
      StepInv(Run(count, front).value, step);
    }
  }

  lemma InitialInv(count: nat)
    requires count > 0
    ensures Inv(Initial(count))
  {
  }

  lemma StepInv(st: System, step: Step)
    requires Inv(st) && Enabled(st, step) && (step.Call? ==> Fits(|st.partitions|, step.clusters, step.bitmap))
    ensures Inv(Next(st, step)) && |Next(st, step).partitions| == |st.partitions|
  {
    hide Inv;
    match step
    case Call(clusters, bitmap) => CallInv(st, clusters, bitmap);
    case MarkNext(p) => MarkInv(st, p);
    case NotifyNext(p) => NotifyInv(st, p);
    case TakeToken(_) => ConsumeInv(st, step);
    case ClearMap(_) => ConsumeInv(st, step);
    case SwapMaps(_) => ConsumeInv(st, step);
  }

  // ---- What has been marked, told from the steps alone ------------------------------------------------

  /** The clusters of each call, in the order of the calls. */
  function Calls(steps: seq<Step>): seq<seq<nat>> {
    if steps == [] then []
    else
      var last := steps[|steps| - 1];
      Calls(steps[..|steps| - 1]) + if last.Call? then [last.clusters] else []
  }

  /** How many clusters a call has marked. */
  function Marks(steps: seq<Step>, p: nat): nat {
    if steps == [] then 0
    else Marks(steps[..|steps| - 1], p) + if steps[|steps| - 1] == MarkNext(p) then 1 else 0
  }

  /** The cluster a call marks next. */
  function NextMark(steps: seq<Step>, p: nat): Option<nat> {
    if p < |Calls(steps)| && Marks(steps, p) < |Calls(steps)[p]| then Some(Calls(steps)[p][Marks(steps, p)]) else None
  }

  /** The clusters of a partition that calls have marked since its consumer last swapped maps: the i-th mark of a call
      is for its i-th cluster. */
  function MarkedSince(count: nat, steps: seq<Step>, q: nat): set<nat>
    requires count > 0
  {
    if steps == [] then {}
    else
      var (before, last) := (steps[..|steps| - 1], steps[|steps| - 1]);
      if last == SwapMaps(q) then {}
      else if last.MarkNext? && NextMark(before, last.producer).Some?
              && Home(count, NextMark(before, last.producer).value) == q
      then MarkedSince(count, before, q) + {NextMark(before, last.producer).value}
      else MarkedSince(count, before, q)
  }

  /** What the consumer was handed at its last swap. */
  function HandedOver(count: nat, steps: seq<Step>, q: nat): set<nat>
    requires count > 0
  {
    if steps == [] then {}
    else if steps[|steps| - 1] == SwapMaps(q) then MarkedSince(count, steps[..|steps| - 1], q)
    else HandedOver(count, steps[..|steps| - 1], q)
  }

  predicate ProducersAre(st: System, steps: seq<Step>) {
    && |st.producers| == |Calls(steps)|
    && forall p :: 0 <= p < |st.producers| ==>
         st.producers[p].clusters == Calls(steps)[p] && st.producers[p].marked == Marks(steps, p)
  }

  predicate PartitionIs(count: nat, st: System, steps: seq<Step>, q: nat)
    requires count > 0 && q < |st.partitions|
  {
    st.partitions[q].owed == MarkedSince(count, steps, q) && st.partitions[q].taken == HandedOver(count, steps, q)
  }

  lemma StepProducers(st: System, steps: seq<Step>, step: Step)
    requires Inv(st) && ProducersAre(st, steps) && Enabled(st, step)
    requires forall p :: |Calls(steps)| <= p ==> Marks(steps, p) == 0
    ensures ProducersAre(Next(st, step), steps + [step])
    ensures forall p :: |Calls(steps + [step])| <= p ==> Marks(steps + [step], p) == 0
  {
    assert (steps + [step])[..|steps|] == steps;
    forall p: nat ensures Marks(steps + [step], p) == Marks(steps, p) + if step == MarkNext(p) then 1 else 0 {
    }
  }

  lemma StepPartition(count: nat, st: System, steps: seq<Step>, step: Step, q: nat)
    requires Inv(st) && ProducersAre(st, steps) && Enabled(st, step) && |st.partitions| == count && q < count
    requires PartitionIs(count, st, steps, q)
    ensures |Next(st, step).partitions| == count && PartitionIs(count, Next(st, step), steps + [step], q)
  {
    hide Calls, Marks;
    assert (steps + [step])[..|steps|] == steps;
    assert PartitionOk(st.partitions[q]);
  }

  lemma {:induction false} RunMarks(count: nat, steps: seq<Step>)
    requires count > 0 && Run(count, steps).Some? && Narrow(count, steps)
    ensures var st := Run(count, steps).value;
            && ProducersAre(st, steps) && (forall p :: |Calls(steps)| <= p ==> Marks(steps, p) == 0)
            && |st.partitions| == count && forall q: nat :: q < count ==> PartitionIs(count, st, steps, q)
  {
    hide Enabled, Next, Inv;
    if steps != [] {
      var (front, step) := (steps[..|steps| - 1], steps[|steps| - 1]);
      assert Narrow(count, front);
      RunMarks(count, front);
      RunInv(count, front);
      var st := Run(count, front).value;
      StepProducers(st, front, step);
      StepInv(st, step);
      assert front + [step] == steps;
      hide ProducersAre, PartitionIs;
      forall q: nat | q < count ensures PartitionIs(count, Next(st, step), steps, q) {
        StepPartition(count, st, front, step, q);
      }
    }
  }

  /** No lost wake-up: whenever a worker's ready map is not empty its channel holds a token, a producer is
      between marking and notifying, or the worker has taken the token and not yet swapped maps. The map
      holds exactly the clusters that calls have marked since the last swap, and `ready` is always
      maps[index % 2]. */
  lemma {:induction false} NoLostWakeup(count: nat, steps: seq<Step>, q: nat)
    requires q < count && Run(count, steps).Some? && Narrow(count, steps)
    ensures var st := Run(count, steps).value;
            && !st.panicked && q < |st.partitions| && WellFormed(st.partitions[q].ready)
            && var r := st.partitions[q].ready;
               && r.current == r.index % 2 && r.maps[r.current] == st.partitions[q].owed
               && r.maps[r.current] == MarkedSince(count, steps, q)
               && (r.maps[r.current] != {} ==> WakeupPending(st, q))
  {
    RunInv(count, steps);
    RunMarks(count, steps);
    hide Run;
    assert PartitionOk(Run(count, steps).value.partitions[q]) && PartitionIs(count, Run(count, steps).value, steps, q);
  }

  /** A swap hands the worker exactly what calls have marked since the previous one. */
  lemma {:induction false} SwapDelivers(count: nat, steps: seq<Step>, q: nat)
    requires q < count && Run(count, steps).Some? && Narrow(count, steps)
      && Enabled(Run(count, steps).value, SwapMaps(q))
    ensures var (st, st') := (Run(count, steps).value, Next(Run(count, steps).value, SwapMaps(q)));
            && q < |st.partitions| && q < |st'.partitions| && WellFormed(st'.partitions[q].ready)
            && st'.partitions[q].taken == st.partitions[q].owed
            && st'.partitions[q].taken == MarkedSince(count, steps, q)
            && st'.partitions[q].ready.maps[st'.partitions[q].ready.current] == {}
  {
    RunInv(count, steps);
    RunMarks(count, steps);
    hide Run, Narrow;
    var st := Run(count, steps).value;
    assert PartitionOk(st.partitions[q]) && PartitionIs(count, st, steps, q);
    ConsumeInv(st, SwapMaps(q));
    assert PartitionOk(Next(st, SwapMaps(q)).partitions[q]);
  }

  // ---- Batch calls that do not fit --------------------------------------------------------------------

  lemma RunSnoc(count: nat, steps: seq<Step>, step: Step)
    requires Run(count, steps).Some? && Enabled(Run(count, steps).value, step)
    ensures Run(count, steps + [step]) == Some(Next(Run(count, steps).value, step))
  {
    hide Enabled, Next;
    assert (steps + [step])[..|steps|] == steps;
  }

  /** The call has a cluster to notify whose partition is not in the bitmap. */
  predicate WillPanic(st: System, p: nat) {
    && !st.panicked && st.partitions != [] && p < |st.producers| && st.producers[p].bitmap
    && (forall q :: 0 <= q < |st.partitions| ==> WellFormed(st.partitions[q].ready))
    && var pr := st.producers[p];
       && pr.visited <= pr.marked <= |pr.clusters| && (pr.visited > 0 ==> pr.marked == |pr.clusters|)
       && exists i :: pr.visited <= i < |pr.clusters| && Home(|st.partitions|, pr.clusters[i]) >= 64
  }

  /** One more step of the call. */
  lemma CallGoesOn(st: System, p: nat) returns (step: Step)
    requires WillPanic(st, p)
    ensures Enabled(st, step)
    ensures var st' := Next(st, step);
            st'.panicked || (WillPanic(st', p) && |st'.producers[p].clusters| == |st.producers[p].clusters|
                             && st'.producers[p].marked + st'.producers[p].visited
                                == st.producers[p].marked + st.producers[p].visited + 1)
  {
    var pr := st.producers[p];
    var i :| pr.visited <= i < |pr.clusters| && Home(|st.partitions|, pr.clusters[i]) >= 64;
    step := if pr.marked < |pr.clusters| then MarkNext(p) else NotifyNext(p);
    var st' := Next(st, step);
    if !st'.panicked {
      assert Home(|st'.partitions|, st'.producers[p].clusters[i]) >= 64;
      assert i != pr.visited || step.MarkNext?;
    }
  }

  lemma {:induction false} CallPanics(count: nat, steps: seq<Step>, p: nat) returns (more: seq<Step>)
    requires Run(count, steps).Some? && WillPanic(Run(count, steps).value, p)
    ensures Run(count, steps + more).Some? && Run(count, steps + more).value.panicked
    decreases var pr := Run(count, steps).value.producers[p]; 2 * |pr.clusters| - pr.marked - pr.visited
  {
    hide Enabled, Next;
    var step := CallGoesOn(Run(count, steps).value, p);
    RunSnoc(count, steps, step);
    more := [step];
    if !Run(count, steps + [step]).value.panicked {
      var rest := CallPanics(count, steps + [step], p);
      assert steps + [step] + rest == steps + ([step] + rest);
      more := [step] + rest;
    }
  }

  /** Any batch call with a cluster whose partition is 64 or higher makes the engine panic, once it goes on,
      whatever has happened before. */
  lemma {:induction false} WideBatchPanics(count: nat, steps: seq<Step>, clusters: seq<nat>) returns (more: seq<Step>)
    requires count > 0 && Run(count, steps).Some? && Narrow(count, steps) && !Fits(count, clusters, true)
    ensures var end := Run(count, steps + [Call(clusters, true)] + more); end.Some? && end.value.panicked
  {
    RunInv(count, steps);
    var (st, step) := (Run(count, steps).value, Call(clusters, true));
    forall q | 0 <= q < |st.partitions| ensures WellFormed(st.partitions[q].ready) {
      assert PartitionOk(st.partitions[q]);
    }
    RunSnoc(count, steps, step);
    var i :| 0 <= i < |clusters| && Home(count, clusters[i]) >= 64;
    assert Home(|Next(st, step).partitions|, Next(st, step).producers[|st.producers|].clusters[i]) >= 64;
    more := CallPanics(count, steps + [step], |st.producers|);
  }
}
