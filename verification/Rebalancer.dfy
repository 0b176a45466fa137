/** The leader rebalancer: partitions whose leader role carries most of the load, swapped in place by a
    randomized search that simulates, undoes and finally replays the best swaps. Random choices are
    nondeterministic and scores are exact. */
module Rebalancer {
  import opened Bytes

  /** A node without a replica has a negative score. */
  datatype Partition = Partition(scores: seq<int>, leader: int)

  datatype Swap = Swap(partition: int, oldLeader: int, newLeader: int)

  predicate ValidPartition(p: Partition) {
    0 <= p.leader < |p.scores| && p.scores[p.leader] >= 0
  }

  predicate IsReplica(p: Partition, i: int) {
    0 <= i < |p.scores| && p.scores[i] >= 0
  }

  /** The old and the new leader exchange their scores along with the role. */
  function SwapPartition(p: Partition, i: int): Partition
    requires ValidPartition(p) && IsReplica(p, i)
  {
    Partition(p.scores[p.leader := p.scores[i]][i := p.scores[p.leader]], i)
  }

  /** The new leader is the given replica, with the score of the old leader, which has its score; other nodes are as
      they were. */
  lemma SwapExchanges(p: Partition, i: int, node: int)
    requires ValidPartition(p) && IsReplica(p, i) && 0 <= node < |p.scores|
    ensures var q := SwapPartition(p, i);
            && q.leader == i && |q.scores| == |p.scores|
            && q.scores[node] == if node == i then p.scores[p.leader] else if node == p.leader then p.scores[i]
                                 else p.scores[node]
  {
  }

  lemma SwapBack(p: Partition, i: int)
    requires ValidPartition(p) && IsReplica(p, i)
    ensures var q := SwapPartition(p, i);
            ValidPartition(q) && IsReplica(q, p.leader) && SwapPartition(q, p.leader) == p
  {
    var q := SwapPartition(p, i);
    assert SwapPartition(q, p.leader).scores == p.scores;
  }

  // ---- Clusters -----------------------------------------------------------------------------------

  predicate ValidPartitions(ps: seq<Partition>, nodes: nat)
    ensures ValidPartitions(ps, nodes) ==> nodes > 0
  {
    && ps != []
    && (forall k :: 0 <= k < |ps| ==> ValidPartition(ps[k]) && |ps[k].scores| == nodes)
    && ValidPartition(ps[0])
  }

  function Positive(x: int): nat { if x > 0 then x else 0 }

  /** What a node carries over all partitions. */
  function NodeTotal(ps: seq<Partition>, node: nat): nat
    requires forall k :: 0 <= k < |ps| ==> node < |ps[k].scores|
  {
    if ps == [] then 0 else NodeTotal(ps[..|ps| - 1], node) + Positive(ps[|ps| - 1].scores[node])
  }

  lemma {:induction false} NodeTotalUpdate(ps: seq<Partition>, k: nat, p: Partition, node: nat)
    requires k < |ps| && forall i :: 0 <= i < |ps| ==> node < |ps[i].scores|
    requires node < |p.scores|
    ensures NodeTotal(ps[k := p], node) == NodeTotal(ps, node) - Positive(ps[k].scores[node]) + Positive(p.scores[node])
  {
    var n := |ps| - 1;
    if k < n {
      assert ps[k := p][..n] == ps[..n][k := p];
      NodeTotalUpdate(ps[..n], k, p, node);
    } else {
      assert ps[k := p][..n] == ps[..n];
    }
  }

  predicate CanSwap(ps: seq<Partition>, k: int, i: int) {
    0 <= k < |ps| && ValidPartition(ps[k]) && IsReplica(ps[k], i)
  }

  function ApplySwap(ps: seq<Partition>, k: int, i: int): seq<Partition>
    requires CanSwap(ps, k, i)
  {
    ps[k := SwapPartition(ps[k], i)]
  }

  lemma ApplyBack(ps: seq<Partition>, k: int, i: int)
    requires CanSwap(ps, k, i)
    ensures var qs := ApplySwap(ps, k, i);
            CanSwap(qs, k, ps[k].leader) && ApplySwap(qs, k, ps[k].leader) == ps
  {
    SwapBack(ps[k], i);
  }

  lemma SwapSelf(ps: seq<Partition>, k: int)
    requires 0 <= k < |ps| && ValidPartition(ps[k])
    ensures CanSwap(ps, k, ps[k].leader) && ApplySwap(ps, k, ps[k].leader) == ps
  {
    assert SwapPartition(ps[k], ps[k].leader).scores == ps[k].scores;
  }

  /** The swaps happened one after the other, each from the leader of the moment to another replica. */
  predicate Recorded(ps: seq<Partition>, swaps: seq<Swap>)
    decreases |swaps|, 0
  {
    swaps != [] ==>
      var n := |swaps| - 1;
      && Recorded(ps, swaps[..n])
      && var before := ApplySwaps(ps, swaps[..n]);
         CanSwap(before, swaps[n].partition, swaps[n].newLeader)
         && before[swaps[n].partition].leader == swaps[n].oldLeader
  }

  function ApplySwaps(ps: seq<Partition>, swaps: seq<Swap>): seq<Partition>
    requires Recorded(ps, swaps)
    decreases |swaps|, 1
  {
    if swaps == [] then ps
    else
      var n := |swaps| - 1;
      ApplySwap(ApplySwaps(ps, swaps[..n]), swaps[n].partition, swaps[n].newLeader)
  }

  predicate OncePerPartition(swaps: seq<Swap>) {
    forall i, j :: 0 <= i < j < |swaps| ==> swaps[i].partition != swaps[j].partition
  }

  lemma RecordedSnoc(ps: seq<Partition>, swaps: seq<Swap>, s: Swap)
    requires Recorded(ps, swaps)
    requires var before := ApplySwaps(ps, swaps);
             CanSwap(before, s.partition, s.newLeader) && before[s.partition].leader == s.oldLeader
    ensures Recorded(ps, swaps + [s])
    ensures ApplySwaps(ps, swaps + [s]) == ApplySwap(ApplySwaps(ps, swaps), s.partition, s.newLeader)
  {
    assert (swaps + [s])[..|swaps|] == swaps;
  }

  /** What the returned swaps mean: every swapped partition ends with its new leader, every other
      partition is as it was. */
  lemma {:induction false} SwapsMove(ps: seq<Partition>, swaps: seq<Swap>, k: int)
    requires Recorded(ps, swaps) && OncePerPartition(swaps) && 0 <= k < |ps|
    ensures |ApplySwaps(ps, swaps)| == |ps|
    ensures (forall i :: 0 <= i < |swaps| ==> swaps[i].partition != k) ==> ApplySwaps(ps, swaps)[k] == ps[k]
    ensures forall i :: 0 <= i < |swaps| && swaps[i].partition == k ==>
              && CanSwap(ps, k, swaps[i].newLeader) && swaps[i].oldLeader == ps[k].leader
              && ApplySwaps(ps, swaps)[k] == SwapPartition(ps[k], swaps[i].newLeader)
  {
    if swaps != [] {
      var n := |swaps| - 1;
      SwapsMove(ps, swaps[..n], k);
      assert forall i :: 0 <= i < n ==> swaps[..n][i] == swaps[i];
    }
  }

  // ---- Scores -------------------------------------------------------------------------------------

  function Sum(s: seq<int>): int {
    if s == [] then 0 else Sum(s[..|s| - 1]) + s[|s| - 1]
  }

  function SumSquares(s: seq<int>): int {
    if s == [] then 0 else SumSquares(s[..|s| - 1]) + s[|s| - 1] * s[|s| - 1]
  }

  function Deviations(s: seq<int>, mean: real): real {
    if s == [] then 0.0
    else Deviations(s[..|s| - 1], mean) + (s[|s| - 1] as real - mean) * (s[|s| - 1] as real - mean)
  }

  /** The square of the score: the variance of the node totals. */
  function Variance(s: seq<int>): real
    requires s != []
  {
    Deviations(s, Sum(s) as real / |s| as real) / |s| as real
  }

  /** What a given mean adds to the sum of squares; it depends on the sum and the number alone. */
  function Offset(mean: real, sum: int, count: nat): real {
    count as real * mean * mean - 2.0 * mean * sum as real
  }

  lemma {:induction false} DeviationsExpand(s: seq<int>, mean: real)
    ensures Deviations(s, mean) == SumSquares(s) as real + Offset(mean, Sum(s), |s|)
  {
    if s != [] {
      var n := |s| - 1;
      DeviationsExpand(s[..n], mean);
      SquareOfDifference(s[n], mean);
    }
  }

  lemma SquareOfDifference(x: int, mean: real)
    ensures (x as real - mean) * (x as real - mean) == (x * x) as real - 2.0 * mean * x as real + mean * mean
  {
  }

  /** The variance in terms of sums: the mean of the squares less the square of the mean. */
  lemma VarianceIs(s: seq<int>)
    requires s != []
    ensures var n := |s| as real;
            Variance(s) == SumSquares(s) as real / n - (Sum(s) as real / n) * (Sum(s) as real / n)
  {
    hide Deviations, Sum, SumSquares;
    var (n, sum) := (|s| as real, Sum(s) as real);
    DeviationsExpand(s, sum / n);
    MeanCancels(SumSquares(s) as real, sum, n);
  }

  lemma MeanCancels(squares: real, sum: real, n: real)
    requires n > 0.0
    ensures (squares + (n * (sum / n) * (sum / n) - 2.0 * (sum / n) * sum)) / n == squares / n - (sum / n) * (sum / n)
  {
    var m := sum / n;
    assert sum == n * m;
    assert n * m * m - 2.0 * m * sum == -(n * (m * m));
    assert (squares - n * (m * m)) / n == squares / n - m * m;
  }

  /** Swaps keep the sum of the totals, so comparing scores is comparing sums of squares. */
  lemma VarianceOrder(a: seq<int>, b: seq<int>)
    requires a != [] && |a| == |b| && Sum(a) == Sum(b)
    ensures Variance(a) < Variance(b) <==> SumSquares(a) < SumSquares(b)
  {
    hide Deviations, Sum, SumSquares;
    var n := |a| as real;
    var mean := Sum(a) as real / n;
    DeviationsDiffer(a, b, mean);
    DivideOrder(Deviations(a, mean), Deviations(b, mean), n);
  }

  lemma DeviationsDiffer(a: seq<int>, b: seq<int>, mean: real)
    requires |a| == |b| && Sum(a) == Sum(b)
    ensures Deviations(a, mean) - Deviations(b, mean) == SumSquares(a) as real - SumSquares(b) as real
  {
    hide Deviations, Sum, SumSquares, Offset;
    DeviationsExpand(a, mean);
    DeviationsExpand(b, mean);
  }

  lemma DivideOrder(x: real, y: real, n: real)
    requires n > 0.0
    ensures x / n < y / n <==> x < y
  {
  }

  // ---- The cluster in place -----------------------------------------------------------------------

  method NewPartition(scores: seq<int>, leader: int) returns (r: Result<Partition>)
    ensures r.Ok? <==> ValidPartition(Partition(scores, leader))
    ensures r.Ok? ==> r.value == Partition(scores, leader)
  {
    var p := Partition(scores, leader);
    var replicas := Replicas(p);
    assert ValidPartition(p) ==> leader in ReplicaSet(p);
    if |scores| == 0 || replicas == 0 || !(0 <= leader < |scores|) || scores[leader] < 0 {
      return Err;
    }
    return Ok(p);
  }

  /** Nodes that hold a replica. */
  function ReplicaSet(p: Partition): set<int> {
    set i | 0 <= i < |p.scores| && p.scores[i] >= 0
  }

  method Replicas(p: Partition) returns (count: nat)
    ensures count == |ReplicaSet(p)|
  {
    count := 0;
    ghost var seen: set<int> := {};
    for i := 0 to |p.scores|
      invariant seen == set j | 0 <= j < i && p.scores[j] >= 0
      invariant count == |seen|
    {
      if p.scores[i] >= 0 {
        count := count + 1;
        seen := seen + {i};
      }
    }
    assert seen == ReplicaSet(p);
  }

  /** One pass that picks among the followers; -1 if there are none. */
  method RandomFollowerIndex(p: Partition) returns (index: int)
    ensures index == -1 <==> forall i :: IsReplica(p, i) ==> i == p.leader
    ensures index != -1 ==> IsReplica(p, index) && index != p.leader
  {
    index := -1;
    var followers := 0;
    for i := 0 to |p.scores|
      invariant followers == 0 <==> index == -1
      invariant index == -1 <==> forall k :: 0 <= k < i && p.scores[k] >= 0 ==> k == p.leader
      invariant index != -1 ==> IsReplica(p, index) && index != p.leader
    {
      if p.scores[i] < 0 || i == p.leader {
        continue;
      }
      followers := followers + 1;
      var chosen: bool := *;
      if followers == 1 || chosen {
        index := i;
      }
    }
  }

  /** NewCluster accepts partitions with equally many nodes and equally many replicas. */
  predicate Compatible(ps: seq<Partition>) {
    ps != [] && forall k :: 0 <= k < |ps| ==>
      |ps[k].scores| == |ps[0].scores| && |ReplicaSet(ps[k])| == |ReplicaSet(ps[0])|
  }

  method CheckPartitions(ps: seq<Partition>) returns (ok: bool)
    ensures ok <==> Compatible(ps)
  {
    if |ps| == 0 {
      return false;
    }
    var nodes: int, replicas: int := -1, -1;
    for k := 0 to |ps|
      invariant nodes == -1 <==> k == 0
      invariant replicas == -1 <==> k == 0
      invariant forall i :: 0 <= i < k ==> |ps[i].scores| == nodes && |ReplicaSet(ps[i])| == replicas
    {
      var r := Replicas(ps[k]);
      if nodes != -1 && (nodes != |ps[k].scores| || replicas != r) {
        assert |ps[0].scores| == nodes && |ReplicaSet(ps[0])| == replicas;
        return false;
      }
      nodes, replicas := |ps[k].scores|, r;
    }
    assert |ps[0].scores| == nodes && |ReplicaSet(ps[0])| == replicas;
    return true;
  }

  /** The cached totals are what the partitions add up to. */
  predicate Cached(ps: seq<Partition>, totals: seq<int>)
    ensures Cached(ps, totals) ==> totals != []
  {
    && ValidPartitions(ps, |totals|)
    && forall node :: 0 <= node < |totals| ==> totals[node] == NodeTotal(ps, node)
  }

  class Cluster {
    var partitions: seq<Partition>
    var perNodeScores: seq<int>

    predicate Valid()
      reads this
    {
      Cached(partitions, perNodeScores)
    }

    constructor (ps: seq<Partition>)
      requires ps != [] && ValidPartitions(ps, |ps[0].scores|)
      ensures Valid() && partitions == ps
    {
      partitions := ps;
      var totals := seq(|ps[0].scores|, _ => 0);
      for k := 0 to |ps|
        invariant |totals| == |ps[0].scores|
        invariant forall node :: 0 <= node < |totals| ==> totals[node] == NodeTotal(ps[..k], node)
      {
        totals := AddScores(totals, ps, k);
      }
      perNodeScores := totals;
      assert ps[..|ps|] == ps;
    }

    static method AddScores(totals: seq<int>, ps: seq<Partition>, k: nat) returns (sums: seq<int>)
      requires k < |ps| && ValidPartitions(ps, |totals|)
      requires forall node :: 0 <= node < |totals| ==> totals[node] == NodeTotal(ps[..k], node)
      ensures |sums| == |totals|
      ensures forall node :: 0 <= node < |sums| ==> sums[node] == NodeTotal(ps[..k + 1], node)
    {
      assert ps[..k + 1][..k] == ps[..k];
      sums := totals;
      for i := 0 to |ps[k].scores|
        invariant |sums| == |totals|
        invariant forall node :: 0 <= node < i ==> sums[node] == NodeTotal(ps[..k + 1], node)
        invariant forall node :: i <= node < |sums| ==> sums[node] == NodeTotal(ps[..k], node)
      {
        if ps[k].scores[i] > 0 {
          sums := sums[i := sums[i] + ps[k].scores[i]];
        }
      }
    }

    method SwapLeader(k: int, i: int) returns (r: Result<Swap>)
      requires Valid()
      modifies this
      ensures Valid() && |perNodeScores| == old(|perNodeScores|)
      ensures r.Ok? <==> CanSwap(old(partitions), k, i)
      ensures r.Ok? ==>
                r.value == Swap(k, old(partitions[k].leader), i) && partitions == ApplySwap(old(partitions), k, i)
      ensures r.Err? ==> partitions == old(partitions) && perNodeScores == old(perNodeScores)
    {
      if !(0 <= k < |partitions|) {
        return Err;
      }
      var p := partitions[k];
      if !(0 <= i < |p.scores|) || p.scores[i] < 0 {
        return Err;
      }
      var j := p.leader;
      var oldScore, newScore := p.scores[j], p.scores[i];
      ghost var before := partitions;
      partitions := partitions[k := Partition(p.scores[j := newScore][i := oldScore], i)];
      perNodeScores := perNodeScores[j := perNodeScores[j] + (newScore - oldScore)];
      perNodeScores := perNodeScores[i := perNodeScores[i] + (0 - newScore + oldScore)];
      forall node | 0 <= node < |perNodeScores| ensures perNodeScores[node] == NodeTotal(partitions, node) {
        NodeTotalUpdate(before, k, partitions[k], node);
      }
      return Ok(Swap(k, j, i));
    }

    method Undo(s: Swap) returns (ok: bool)
      requires Valid()
      modifies this
      ensures Valid() && |perNodeScores| == old(|perNodeScores|)
      ensures ok <==> CanSwap(old(partitions), s.partition, s.oldLeader)
      ensures partitions == if ok then ApplySwap(old(partitions), s.partition, s.oldLeader) else old(partitions)
    {
      var r := SwapLeader(s.partition, s.oldLeader);
      return r.Ok?;
    }

    /** Undoing recorded swaps from right to left restores the cluster exactly. */
    method UndoSwaps(swaps: seq<Swap>, ghost start: seq<Partition>) returns (ok: bool)
      requires Valid() && Recorded(start, swaps) && partitions == ApplySwaps(start, swaps)
      modifies this
      ensures ok && Valid() && partitions == start && |perNodeScores| == old(|perNodeScores|)
    {
      var i := |swaps|;
      assert swaps[..i] == swaps;
      while i > 0
        invariant 0 <= i <= |swaps| && Valid() && |perNodeScores| == old(|perNodeScores|)
        invariant Recorded(start, swaps[..i]) && partitions == ApplySwaps(start, swaps[..i])
      {
        i := i - 1;
        assert swaps[..i + 1][..i] == swaps[..i];
        var s := swaps[i];
        ApplyBack(ApplySwaps(start, swaps[..i]), s.partition, s.newLeader);
        var undone := Undo(s);
      }
      return true;
    }

    method RandomPartitionIndex(excluded: set<int>) returns (index: int)
      ensures index == -1 <==> forall k :: 0 <= k < |partitions| ==> k in excluded
      ensures index != -1 ==> 0 <= index < |partitions| && index !in excluded
    {
      index := -1;
      var available := 0;
      for k := 0 to |partitions|
        invariant available == 0 <==> index == -1
        invariant index == -1 <==> forall i :: 0 <= i < k ==> i in excluded
        invariant index != -1 ==> 0 <= index < k && index !in excluded
      {
        if k in excluded {
          continue;
        }
        available := available + 1;
        var chosen: bool := *;
        if available == 1 || chosen {
          index := k;
        }
      }
    }

    /** A swap of a partition that is not excluded to one of its followers, or no swap at all. */
    method SwapRandom(excluded: set<int>) returns (s: Swap)
      requires Valid()
      modifies this
      ensures Valid() && |perNodeScores| == old(|perNodeScores|)
      ensures CanSwap(old(partitions), s.partition, s.newLeader) && s.oldLeader == old(partitions)[s.partition].leader
      ensures partitions == ApplySwap(old(partitions), s.partition, s.newLeader)
      ensures s.partition in excluded || s.newLeader == s.oldLeader ==> partitions == old(partitions)
    {
      var noSwap := Swap(0, partitions[0].leader, partitions[0].leader);
      SwapSelf(partitions, 0);
      var k := RandomPartitionIndex(excluded);
      if k < 0 {
        return noSwap;
      }
      var i := RandomFollowerIndex(partitions[k]);
      if i < 0 {
        return noSwap;
      }
      var r := SwapLeader(k, i);
      return r.value;
    }

    /** The two loops of Score, up to the square root. */
    method Score() returns (variance: real)
      requires Valid()
      ensures variance == Variance(perNodeScores)
    {
      hide Cached;
      var total := 0;
      for i := 0 to |perNodeScores|
        invariant total == Sum(perNodeScores[..i])
      {
        assert perNodeScores[..i + 1][..i] == perNodeScores[..i];
        total := total + perNodeScores[i];
      }
      assert perNodeScores[..|perNodeScores|] == perNodeScores;
      var mean := total as real / |perNodeScores| as real;
      variance := 0.0;
      for i := 0 to |perNodeScores|
        invariant variance == Deviations(perNodeScores[..i], mean)
      {
        assert perNodeScores[..i + 1][..i] == perNodeScores[..i];
        var delta := perNodeScores[i] as real - mean;
        variance := variance + delta * delta;
      }
      return variance / |perNodeScores| as real;
    }

    /** One simulation: the cluster ends where the returned swaps lead, each partition swapped at most
        once and to another replica. There is one round for each partition; a round ends with a swap that is
        accepted or after `repeats` swaps that are not. */
    method SimulatedAnnealing(repeats: int) returns (swaps: seq<Swap>, ghost rounds: seq<Round>)
      requires Valid()
      modifies this
      ensures Valid() && |perNodeScores| == old(|perNodeScores|)
      ensures Recorded(old(partitions), swaps) && partitions == ApplySwaps(old(partitions), swaps)
      ensures OncePerPartition(swaps) && forall i :: 0 <= i < |swaps| ==> swaps[i].newLeader != swaps[i].oldLeader
      ensures |rounds| == |old(partitions)| && swaps == AcceptedIn(rounds)
      ensures forall i :: 0 <= i < |rounds| ==> RoundEnds(rounds[i], repeats)
    {
      hide Cached, SwapPartition, Variance, Recorded, ApplySwaps, AcceptedIn;
      swaps, rounds := [], [];
      NoSwaps(partitions);
      var currentScore := Score();
      var excluded: set<int> := {};
      for i := 0 to |partitions|
        invariant Valid() && |perNodeScores| == old(|perNodeScores|) && currentScore == Variance(perNodeScores)
        invariant Recorded(old(partitions), swaps) && partitions == ApplySwaps(old(partitions), swaps)
        invariant excluded == set k | 0 <= k < |swaps| :: swaps[k].partition
        invariant OncePerPartition(swaps) && forall k :: 0 <= k < |swaps| ==> swaps[k].newLeader != swaps[k].oldLeader
        invariant |rounds| == i && swaps == AcceptedIn(rounds)
        invariant forall k :: 0 <= k < i ==> RoundEnds(rounds[k], repeats)
      {
        var j := 0;
        ghost var before := swaps;
        while j < repeats
          invariant 0 <= j && (repeats > 0 ==> j <= repeats) && (repeats <= 0 ==> j == 0) && swaps == before
          invariant Valid() && |perNodeScores| == old(|perNodeScores|) && currentScore == Variance(perNodeScores)
          invariant Recorded(old(partitions), swaps) && partitions == ApplySwaps(old(partitions), swaps)
          invariant excluded == set k | 0 <= k < |swaps| :: swaps[k].partition
          invariant OncePerPartition(swaps) && forall k :: 0 <= k < |swaps| ==> swaps[k].newLeader != swaps[k].oldLeader
        {
          var accepted, swap, score := TrySwap(excluded, currentScore);
          if accepted {
            currentScore := score;
            RecordedSnoc(old(partitions), swaps, swap);
            swaps := swaps + [swap];
            excluded := excluded + {swap.partition};
            break;
          }
          j := j + 1;
        }
        ghost var round := Round(j, if swaps == before then None else Some(swaps[|swaps| - 1]));
        AcceptedSnoc(rounds, round);
        rounds := rounds + [round];
      }
    }

    /** Rebalancing: every simulation is undone, and the best one is replayed: of all simulations that were made none
        has a better score, none with the same score fewer swaps, and none is used unless it improves on
        the start. */
    method Rebalance(simulations: int, repeats: int) returns (best: seq<Swap>, ghost tried: seq<Trial>)
      requires Valid()
      modifies this
      ensures Valid() && |perNodeScores| == old(|perNodeScores|)
      ensures Recorded(old(partitions), best) && partitions == ApplySwaps(old(partitions), best)
      ensures OncePerPartition(best) && forall i :: 0 <= i < |best| ==> best[i].newLeader != best[i].oldLeader
      ensures if best == [] then perNodeScores == old(perNodeScores)
        else Variance(perNodeScores) < Variance(old(perNodeScores))
      ensures |tried| == if simulations < 0 then 0 else simulations
      ensures forall i :: 0 <= i < |tried| ==> IsTrial(old(partitions), tried[i], old(|perNodeScores|))
      ensures forall i :: 0 <= i < |tried| ==> NoBetter(tried[i], Variance(perNodeScores), best)
      ensures best == [] || exists i :: 0 <= i < |tried| && tried[i].swaps == best
    {
      hide Cached, SwapPartition, Variance, Recorded, ApplySwaps;
      ghost var start, totals := partitions, perNodeScores;
      var bestScore := Score();
      best, tried := [], [];
      ghost var bestTotals := perNodeScores;
      NoSwaps(start);
      var i := 0;
      while i < simulations
        invariant 0 <= i && (simulations < 0 ==> i == 0) && (simulations >= 0 ==> i <= simulations) && |tried| == i
        invariant Valid() && partitions == start && perNodeScores == totals
        invariant Recorded(start, best) && OncePerPartition(best)
        invariant forall i :: 0 <= i < |best| ==> best[i].newLeader != best[i].oldLeader
        invariant Cached(ApplySwaps(start, best), bestTotals) && |bestTotals| == |totals|
        invariant bestScore == Variance(bestTotals)
        invariant if best == [] then bestTotals == totals else bestScore < Variance(totals)
        invariant forall k :: 0 <= k < i ==> IsTrial(start, tried[k], |totals|) && NoBetter(tried[k], bestScore, best)
        invariant best == [] || exists k :: 0 <= k < i && tried[k].swaps == best
      {
        var swaps, rounds := SimulatedAnnealing(repeats);
        var newScore := Score();
        ghost var trial := Trial(swaps, newScore);
        TrialMade(start, trial, perNodeScores);
        if swaps == [] {
          CachedUnique(partitions, perNodeScores, totals);
        }
        ghost var last, before := best, tried;
        if newScore < bestScore || (newScore == bestScore && |swaps| < |best|) {
          bestScore, best, bestTotals := newScore, swaps, perNodeScores;
        }
        tried := tried + [trial];
        StillTried(before, trial, last, best);
        var undone := UndoSwaps(swaps, start);
        CachedUnique(partitions, perNodeScores, totals);
        i := i + 1;
      }
      Replay(best, start);
      CachedUnique(partitions, perNodeScores, bestTotals);
    }

    method Replay(swaps: seq<Swap>, ghost start: seq<Partition>)
      requires Valid() && partitions == start && Recorded(start, swaps)
      modifies this
      ensures Valid() && |perNodeScores| == old(|perNodeScores|) && partitions == ApplySwaps(start, swaps)
    {
      for i := 0 to |swaps|
        invariant Valid() && |perNodeScores| == old(|perNodeScores|)
        invariant Recorded(start, swaps[..i]) && partitions == ApplySwaps(start, swaps[..i])
      {
        RecordedPrefix(start, swaps, i + 1);
        assert swaps[..i + 1][..i] == swaps[..i];
        var r := SwapLeader(swaps[i].partition, swaps[i].newLeader);
      }
      assert swaps[..|swaps|] == swaps;
    }

    /** Swap at random, keep it if it is better or by chance if it is worse, otherwise undo it: a swap that lowers the
        score is always kept, one that leaves it as it is never. */
    method TrySwap(excluded: set<int>, currentScore: real) returns (accepted: bool, swap: Swap, score: real)
      requires Valid() && currentScore == Variance(perNodeScores)
      modifies this
      ensures Valid() && |perNodeScores| == old(|perNodeScores|)
      ensures !accepted ==> partitions == old(partitions) && perNodeScores == old(perNodeScores)
      ensures CanSwap(old(partitions), swap.partition, swap.newLeader)
      ensures exists totals :: Cached(ApplySwap(old(partitions), swap.partition, swap.newLeader), totals)
                               && |totals| == |perNodeScores| && score == Variance(totals)
      ensures (score < currentScore ==> accepted) && (score == currentScore ==> !accepted)
      ensures accepted ==>
        && swap.oldLeader == old(partitions)[swap.partition].leader
        && partitions == ApplySwap(old(partitions), swap.partition, swap.newLeader)
        && swap.partition !in excluded && swap.newLeader != swap.oldLeader && score == Variance(perNodeScores)
    {
      hide Cached, SwapPartition, Variance;
      swap := SwapRandom(excluded);
      score := Score();
      ghost var totals := perNodeScores;
      var acceptWin := score < currentScore;
      var acceptLoss := false;
      if score > currentScore {
        acceptLoss := *;
      }
      accepted := acceptWin || acceptLoss;
      if accepted {
        if partitions == old(partitions) {
          CachedUnique(partitions, perNodeScores, old(perNodeScores));
        }
      } else {
        ApplyBack(old(partitions), swap.partition, swap.newLeader);
        var undone := Undo(swap);
        CachedUnique(partitions, perNodeScores, old(perNodeScores));
      }
      assert Cached(ApplySwap(old(partitions), swap.partition, swap.newLeader), totals);
    }
  }

  /** A round of a simulation: how many swaps were refused, and the one that was accepted, if any. */
  datatype Round = Round(refused: nat, accepted: Option<Swap>)

  predicate RoundEnds(r: Round, repeats: int) {
    if r.accepted.Some? then r.refused < repeats else r.refused == if repeats < 0 then 0 else repeats
  }

  function AcceptedIn(rounds: seq<Round>): seq<Swap> {
    if rounds == [] then []
    else
      var last := rounds[|rounds| - 1].accepted;
      AcceptedIn(rounds[..|rounds| - 1]) + if last.Some? then [last.value] else []
  }

  lemma AcceptedSnoc(rounds: seq<Round>, r: Round)
    ensures AcceptedIn(rounds + [r]) == AcceptedIn(rounds) + if r.accepted.Some? then [r.accepted.value] else []
  {
    assert (rounds + [r])[..|rounds|] == rounds;
  }

  /** A simulation and the score it ended with. */
  datatype Trial = Trial(swaps: seq<Swap>, score: real)

  ghost predicate IsTrial(start: seq<Partition>, t: Trial, nodes: nat) {
    Recorded(start, t.swaps)
    && exists totals :: Cached(ApplySwaps(start, t.swaps), totals) && |totals| == nodes && t.score == Variance(totals)
  }

  predicate NoBetter(t: Trial, score: real, best: seq<Swap>) {
    score < t.score || (score == t.score && |best| <= |t.swaps|)
  }

  lemma TrialMade(start: seq<Partition>, t: Trial, totals: seq<int>)
    requires Recorded(start, t.swaps) && Cached(ApplySwaps(start, t.swaps), totals) && t.score == Variance(totals)
    ensures IsTrial(start, t, |totals|)
  {
  }

  lemma StillTried(tried: seq<Trial>, t: Trial, last: seq<Swap>, best: seq<Swap>)
    requires best == last || best == t.swaps
    requires last == [] || exists k :: 0 <= k < |tried| && tried[k].swaps == last
    ensures best == [] || exists k :: 0 <= k < |tried + [t]| && (tried + [t])[k].swaps == best
  {
    if best == last && best != [] {
      var k :| 0 <= k < |tried| && tried[k].swaps == last;
      assert (tried + [t])[k] == tried[k];
    } else {
      assert (tried + [t])[|tried|] == t;
    }
  }

  lemma NoSwaps(ps: seq<Partition>)
    ensures Recorded(ps, []) && ApplySwaps(ps, []) == ps && AcceptedIn([]) == []
  {
  }

  lemma {:induction false} RecordedPrefix(ps: seq<Partition>, swaps: seq<Swap>, n: nat)
    requires Recorded(ps, swaps) && n <= |swaps|
    ensures Recorded(ps, swaps[..n])
    decreases |swaps|
  {
    if n < |swaps| {
      assert swaps[..|swaps| - 1][..n] == swaps[..n];
      RecordedPrefix(ps, swaps[..|swaps| - 1], n);
    } else {
      assert swaps[..n] == swaps;
    }
  }

  /** The totals are determined by the partitions. */
  lemma CachedUnique(ps: seq<Partition>, a: seq<int>, b: seq<int>)
    requires Cached(ps, a) && Cached(ps, b) && |a| == |b|
    ensures a == b
  {
  }

  // ---- Conservation -------------------------------------------------------------------------------

  lemma {:induction false} SumUpdate(s: seq<int>, i: nat, x: int)
    requires i < |s|
    ensures Sum(s[i := x]) == Sum(s) - s[i] + x
  {
    var n := |s| - 1;
    if i < n {
      assert s[i := x][..n] == s[..n][i := x];
      SumUpdate(s[..n], i, x);
    } else {
      assert s[i := x][..n] == s[..n];
    }
  }

  /** A swap moves load between two nodes and creates none. */
  lemma SwapKeepsSum(ps: seq<Partition>, k: int, i: int, a: seq<int>, b: seq<int>)
    requires Cached(ps, a) && CanSwap(ps, k, i) && Cached(ApplySwap(ps, k, i), b) && |a| == |b|
    ensures Sum(a) == Sum(b)
  {
    hide Sum, NodeTotal;
    var p := ps[k];
    var j := p.leader;
    var moved := a[j := a[j] + p.scores[i] - p.scores[j]];
    forall node | 0 <= node < |a| ensures b[node] == moved[i := moved[i] + p.scores[j] - p.scores[i]][node] {
      NodeTotalUpdate(ps, k, SwapPartition(p, i), node);
    }
    assert b == moved[i := moved[i] + p.scores[j] - p.scores[i]];
    SumUpdate(a, j, a[j] + p.scores[i] - p.scores[j]);
    SumUpdate(moved, i, moved[i] + p.scores[j] - p.scores[i]);
  }

  ghost function Totals(ps: seq<Partition>, nodes: nat): (totals: seq<int>)
    requires ValidPartitions(ps, nodes)
    ensures |totals| == nodes && Cached(ps, totals)
  {
    seq(nodes, node requires 0 <= node < nodes => NodeTotal(ps, node))
  }

  lemma {:induction false} SwapsKeepSum(ps: seq<Partition>, swaps: seq<Swap>, a: seq<int>, b: seq<int>)
    requires Cached(ps, a) && Recorded(ps, swaps) && Cached(ApplySwaps(ps, swaps), b) && |a| == |b|
    ensures Sum(a) == Sum(b)
    decreases |swaps|
  {
    if swaps == [] {
      CachedUnique(ps, a, b);
    } else {
      var n := |swaps| - 1;
      var before := ApplySwaps(ps, swaps[..n]);
      SwapsKeepValid(ps, swaps[..n], |a|);
      SwapsKeepSum(ps, swaps[..n], a, Totals(before, |a|));
      SwapKeepsSum(before, swaps[n].partition, swaps[n].newLeader, Totals(before, |a|), b);
    }
  }

  lemma {:induction false} SwapsKeepValid(ps: seq<Partition>, swaps: seq<Swap>, nodes: nat)
    requires ValidPartitions(ps, nodes) && Recorded(ps, swaps)
    ensures ValidPartitions(ApplySwaps(ps, swaps), nodes)
    decreases |swaps|
  {
    if swaps != [] {
      SwapsKeepValid(ps, swaps[..|swaps| - 1], nodes);
    }
  }

  /** So a better score is a smaller sum of squares of the node totals, for any recorded swaps. */
  lemma BetterScore(ps: seq<Partition>, swaps: seq<Swap>, a: seq<int>, b: seq<int>)
    requires Cached(ps, a) && Recorded(ps, swaps) && Cached(ApplySwaps(ps, swaps), b) && |a| == |b|
    ensures Variance(b) < Variance(a) <==> SumSquares(b) < SumSquares(a)
  {
    SwapsKeepSum(ps, swaps, a, b);
    VarianceOrder(b, a);
  }
}
