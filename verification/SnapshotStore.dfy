/** Recorded snapshots and the truncation of the log. Snapshots are saved by snapshot workers, received
    from other replicas by the step worker, and old ones removed; the log is truncated separately.
    Each step is one action under a lock or on an atomic; the steps interleave. */
module SnapshotStore {
  import opened Bytes

  const SNAPSHOTS_TO_KEEP: nat := 3

  /** Recorded indexes in ascending order, as the log database lists them. */
  predicate Ascending(rs: seq<nat>) {
    forall i, j :: 0 <= i < j < |rs| ==> rs[i] < rs[j]
  }

  /** How many records a listing up to `limit` returns. */
  function Listed(rs: seq<nat>, limit: nat): (k: nat)
    ensures k <= |rs| && (k < |rs| ==> limit < rs[k])
    ensures Ascending(rs) ==> forall i :: 0 <= i < k ==> rs[i] <= limit
  {
    if rs == [] || rs[0] > limit then 0 else 1 + Listed(rs[1..], limit)
  }

  function Insert(rs: seq<nat>, index: nat): seq<nat> {
    var k := Listed(rs, index);
    if index in rs then rs else rs[..k] + [index] + rs[k..]
  }

  /** compact: of the records up to `limit` the newest few stay, and everything above stays. */
  function Compact(rs: seq<nat>, limit: nat): seq<nat> {
    var k := Listed(rs, limit);
    if k <= SNAPSHOTS_TO_KEEP then rs else rs[k - SNAPSHOTS_TO_KEEP..]
  }

  function Without(rs: seq<nat>, index: nat): (s: seq<nat>)
    ensures forall i :: i in s <==> i in rs && i != index
  {
    if rs == [] then [] else if rs[0] == index then Without(rs[1..], index) else [rs[0]] + Without(rs[1..], index)
  }

  function Newest(rs: seq<nat>): nat { if rs == [] then 0 else rs[|rs| - 1] }

  lemma {:induction false} NewestIsHighest(rs: seq<nat>, i: nat)
    requires Ascending(rs) && i in rs
    ensures i <= Newest(rs)
  {
  }

  lemma InsertKeeps(rs: seq<nat>, index: nat)
    requires Ascending(rs)
    ensures Ascending(Insert(rs, index)) && index in Insert(rs, index)
    ensures Newest(Insert(rs, index)) == if Newest(rs) < index || rs == [] then index else Newest(rs)
  {
    hide Listed;
    var k := Listed(rs, index);
    ListedBelow(rs, index);
    if index in rs {
      NewestIsHighest(rs, index);
    } else {
      forall i | 0 <= i < k ensures rs[i] < index {
        assert rs[i] in rs;
      }
      InsertAscends(rs, k, index);
    }
  }

  lemma InsertAscends(rs: seq<nat>, k: nat, index: nat)
    requires Ascending(rs) && k <= |rs| && (k < |rs| ==> index < rs[k])
    requires forall i :: 0 <= i < k ==> rs[i] < index
    ensures Ascending(rs[..k] + [index] + rs[k..]) && index in rs[..k] + [index] + rs[k..]
    ensures Newest(rs[..k] + [index] + rs[k..]) == if Newest(rs) < index || rs == [] then index else Newest(rs)
  {
    var s := rs[..k] + [index] + rs[k..];
    assert s[k] == index;
    assert forall i :: 0 <= i < |s| ==> s[i] == if i < k then rs[i] else if i == k then index else rs[i - 1];
  }

  /** Compaction in terms of the records: what is above the limit stays, of the others exactly the newest few, and
      nothing else is there. */
  lemma CompactKeeps(rs: seq<nat>, limit: nat)
    requires Ascending(rs)
    ensures Ascending(Compact(rs, limit)) && Newest(Compact(rs, limit)) == Newest(rs)
    ensures forall i :: i in rs && i > limit ==> i in Compact(rs, limit)
    ensures forall i :: i in Compact(rs, limit) ==> i in rs
    ensures Compact(rs, limit) != rs ==> Listed(Compact(rs, limit), limit) == SNAPSHOTS_TO_KEEP
    ensures forall i, j :: i in Compact(rs, limit) && j in rs && j !in Compact(rs, limit) ==> j < i
  {
    hide Listed, Ascending, Newest;
    var k := Listed(rs, limit);
    if k > SNAPSHOTS_TO_KEEP {
      var d := k - SNAPSHOTS_TO_KEEP;
      ListedBelow(rs, limit);
      SuffixKeeps(rs, d);
      forall i | i in rs && i > limit ensures i in rs[d..] {
        var j :| 0 <= j < |rs| && rs[j] == i;
        assert rs[d..][j - d] == i;
      }
      ListedDrop(rs, limit, d);
    }
  }

  lemma ListedBelow(rs: seq<nat>, limit: nat)
    requires Ascending(rs)
    ensures Listed(rs, limit) <= |rs| && (Listed(rs, limit) < |rs| ==> limit < rs[Listed(rs, limit)])
    ensures forall i :: 0 <= i < Listed(rs, limit) ==> rs[i] <= limit
  {
  }

  lemma SuffixKeeps(rs: seq<nat>, d: nat)
    requires Ascending(rs) && d < |rs|
    ensures Ascending(rs[d..]) && Newest(rs[d..]) == Newest(rs)
    ensures forall i :: i in rs[d..] ==> i in rs
    ensures forall i, j :: i in rs[d..] && j in rs && j !in rs[d..] ==> j < i
  {
    forall y | d <= y < |rs| ensures rs[y] in rs[d..] {
      InSuffix(rs, d, y);
    }
    forall i, j | i in rs[d..] && j in rs && j !in rs[d..] ensures j < i {
      var x :| 0 <= x < |rs[d..]| && rs[d..][x] == i;
      var y :| 0 <= y < |rs| && rs[y] == j;
    }
  }

  lemma InSuffix(rs: seq<nat>, d: nat, y: nat)
    requires d <= y < |rs|
    ensures rs[y] in rs[d..]
  {
    assert rs[d..][y - d] == rs[y];
  }

  lemma {:induction false} ListedDrop(rs: seq<nat>, limit: nat, d: nat)
    requires Ascending(rs) && d <= Listed(rs, limit)
    ensures Listed(rs[d..], limit) == Listed(rs, limit) - d
  {
    if d > 0 {
      ListedDrop(rs[1..], limit, d - 1);
      assert rs[1..][d - 1..] == rs[d..];
    }
  }

  lemma {:induction false} WithoutAscending(rs: seq<nat>, index: nat)
    requires Ascending(rs)
    ensures Ascending(Without(rs, index))
  {
    if rs != [] {
      WithoutAscending(rs[1..], index);
      var t := Without(rs[1..], index);
      forall j | 0 <= j < |t| ensures rs[0] < t[j] {
        assert t[j] in rs[1..];
      }
    }
  }

  lemma WithoutKeeps(rs: seq<nat>, index: nat)
    requires Ascending(rs) && index != Newest(rs)
    ensures Ascending(Without(rs, index)) && Newest(Without(rs, index)) == Newest(rs)
  {
    var s := Without(rs, index);
    WithoutAscending(rs, index);
    if rs != [] {
      assert Newest(rs) in s;
      NewestIsHighest(s, Newest(rs));
      NewestIsHighest(rs, Newest(s));
    }
  }

  class Snapshotter {
    var records: seq<nat>

    method Remove(index: nat)
      modifies this
      ensures records == Without(old(records), index)
    {
      records := Without(records, index);
    }

    /** The loop removes the selected records one by one. */
    method CompactTo(removeUpTo: nat)
      requires Ascending(records)
      modifies this
      ensures records == Compact(old(records), removeUpTo)
    {
      var count := Listed(records, removeUpTo);
      if count <= SNAPSHOTS_TO_KEEP {
        return;
      }
      var selected := records[..count - SNAPSHOTS_TO_KEEP];
      for i := 0 to |selected|
        invariant records == old(records)[i..]
      {
        WithoutFirst(records);
        Remove(selected[i]);
      }
    }
  }

  lemma WithoutFirst(rs: seq<nat>)
    requires Ascending(rs) && rs != []
    ensures Without(rs, rs[0]) == rs[1..]
  {
    WithoutAbsent(rs[1..], rs[0]);
  }

  lemma {:induction false} WithoutAbsent(rs: seq<nat>, index: nat)
    requires index !in rs
    ensures Without(rs, index) == rs
  {
    if rs != [] {
      WithoutAbsent(rs[1..], index);
    }
  }

  // ---- Runs ---------------------------------------------------------------------------------------

  /** A save that has recorded its snapshot and not yet requested compaction. */
  datatype Saving = Saving(index: nat, overhead: nat, created: bool)

  datatype State = State(records: seq<nat>, reader: nat, compactLogTo: nat, compactedTo: nat,
                         saving: Option<Saving>, removing: bool, panicked: bool)

  datatype Step =
    | CommitSave(index: nat, overhead: nat, exported: bool)
    | CreateSnapshot
    | FinishSave
    | ReceiveSnapshot(index: nat)
    | ApplySnapshot(index: nat)
    | Recovered(index: nat)
    | CheckLog
    | RemoveLog
    | RemoveOrphan(index: nat)
    | Restart

  /** Saving, recovering and the removal of orphans at startup exclude each other. */
  predicate Enabled(s: State, step: Step) {
    !s.panicked &&
    match step
    case CommitSave(_, _, _) => s.saving.None?
    case CreateSnapshot => s.saving.Some? && !s.saving.value.created
    case FinishSave => s.saving.Some? && s.saving.value.created
    case Recovered(_) => s.saving.None?
    case CheckLog => !s.removing && s.compactLogTo > 0
    case RemoveLog => s.removing
    case RemoveOrphan(index) => s.saving.None? && index != Newest(s.records)
    case _ => true
  }

  function Max(a: nat, b: nat): nat { if a < b then b else a }

  function Next(s: State, step: Step): State
    requires Enabled(s, step)
  {
    match step
    case CommitSave(index, overhead, exported) =>
      if exported || index in s.records then s
      else s.(records := Insert(s.records, index), saving := Some(Saving(index, overhead, false)))
    case CreateSnapshot =>
      if s.reader >= s.saving.value.index then s.(saving := None)
      else s.(reader := s.saving.value.index, saving := Some(s.saving.value.(created := true)))
    case FinishSave =>
      var v := s.saving.value;
      s.(compactLogTo := if v.index > v.overhead then v.index - v.overhead else s.compactLogTo,
         records := Compact(s.records, v.index), saving := None)
    case ReceiveSnapshot(index) => s.(records := Insert(s.records, index))
    case ApplySnapshot(index) => s.(reader := Max(s.reader, index))
    case Recovered(index) => s.(records := Compact(s.records, index))
    case CheckLog => s.(removing := true)
    case RemoveLog =>
      s.(compactedTo := Max(s.compactedTo, s.compactLogTo), compactLogTo := 0, removing := false,
         panicked := s.compactLogTo == 0)
    case RemoveOrphan(index) => s.(records := Without(s.records, index))
    case Restart => s.(compactLogTo := 0, saving := None, removing := false, reader := Newest(s.records))
  }

  const INITIAL: State := State([], 0, 0, 0, None, false, false)

  function Run(steps: seq<Step>): Option<State> {
    if steps == [] then Some(INITIAL)
    else
      var before := Run(steps[..|steps| - 1]);
      if before.Some? && Enabled(before.value, steps[|steps| - 1])
      then Some(Next(before.value, steps[|steps| - 1])) else None
  }

  predicate Inv(s: State) {
    && !s.panicked && Ascending(s.records)
    && s.compactLogTo <= Newest(s.records) && s.compactedTo <= Newest(s.records)
    && (s.saving.Some? ==> s.saving.value.index <= Newest(s.records))
    && (s.removing ==> s.compactLogTo > 0)
  }

  lemma StepInv(s: State, step: Step)
    requires Inv(s) && Enabled(s, step)
    ensures Inv(Next(s, step)) && Newest(s.records) <= Newest(Next(s, step).records)
  {
    hide Insert, Compact, Ascending, Newest;
    match step
    case CommitSave(index, _, _) =>
      InsertKeeps(s.records, index);
      InsertCovers(s.records, index);
    case FinishSave => CompactKeeps(s.records, s.saving.value.index);
    case ReceiveSnapshot(index) =>
      InsertKeeps(s.records, index);
      InsertCovers(s.records, index);
    case Recovered(index) => CompactKeeps(s.records, index);
    case RemoveOrphan(index) => WithoutKeeps(s.records, index);
    case _ =>
  }

  /** The log reader's snapshot index moves only forward, but for a restart, which sets it to the newest record; a save
      that is not ahead of it is given up. */
  lemma ReaderMovesForward(s: State, step: Step)
    requires Enabled(s, step)
    ensures var s' := Next(s, step);
            && (step.Restart? ==> s'.reader == Newest(s.records))
            && (!step.Restart? ==> s.reader <= s'.reader)
            && (step.CreateSnapshot? ==> (s'.saving.Some? <==> s.reader < s.saving.value.index))
            && (step.CreateSnapshot? && s'.saving.Some? ==> s'.reader == s.saving.value.index)
            && (step.ApplySnapshot? ==> s'.reader >= step.index)
  {
  }

  lemma InsertCovers(rs: seq<nat>, index: nat)
    requires Ascending(rs)
    ensures index <= Newest(Insert(rs, index)) && Newest(rs) <= Newest(Insert(rs, index))
  {
    InsertKeeps(rs, index);
  }

  lemma {:induction false} RunInv(steps: seq<Step>)
    requires Run(steps).Some?
    ensures Inv(Run(steps).value)
  {
    hide Inv, Enabled, Next;
    if steps == [] {
      assert Inv(INITIAL) by { InitialInv(); }
    } else {
      RunInv(steps[..|steps| - 1]);
      StepInv(Run(steps[..|steps| - 1]).value, steps[|steps| - 1]);
    }
  }

  lemma InitialInv()
    ensures Inv(INITIAL)
  {
  }

  /** In every run the log is truncated, or about to be, only at or below the newest recorded snapshot,
      whatever overhead a request asks for and however snapshots are exported, received or removed. */
  lemma {:induction false} LogIsCovered(steps: seq<Step>)
    requires Run(steps).Some?
    ensures var s := Run(steps).value;
            && !s.panicked
            && s.compactedTo <= Newest(s.records) && s.compactLogTo <= Newest(s.records)
            && (s.compactedTo > 0 ==> exists i :: i in s.records && s.compactedTo <= i)
  {
    RunInv(steps);
    var s := Run(steps).value;
    if s.compactedTo > 0 {
      assert Newest(s.records) in s.records;
    }
  }

  /** What each step does to the records: saving and receiving add one, finishing a save or a recovery leaves the newest
      few up to its index, the removal of an orphan takes one away. */
  lemma StepRecordsAre(s: State, step: Step)
    requires Inv(s) && Enabled(s, step)
    ensures var rs := Next(s, step).records;
            && (step.CommitSave? && !step.exported ==> forall i :: i in rs <==> i in s.records || i == step.index)
            && (step.ReceiveSnapshot? ==> forall i :: i in rs <==> i in s.records || i == step.index)
            && (step.RemoveOrphan? ==> forall i :: i in rs <==> i in s.records && i != step.index)
            && (step.FinishSave? ==> Listed(rs, s.saving.value.index) <= SNAPSHOTS_TO_KEEP)
            && (step.Recovered? ==> Listed(rs, step.index) <= SNAPSHOTS_TO_KEEP)
            && (step.FinishSave? || step.Recovered? ==> forall i :: i in rs ==> i in s.records)
            && (step.CommitSave? && step.exported ==> rs == s.records)
            && (step.CreateSnapshot? || step.ApplySnapshot? ==> rs == s.records)
            && (step.CheckLog? || step.RemoveLog? || step.Restart? ==> rs == s.records)
  {
    hide Ascending, Newest, Listed;
    match step
    case CommitSave(index, _, _) => InsertAdds(s.records, index);
    case ReceiveSnapshot(index) => InsertAdds(s.records, index);
    case FinishSave => FewListed(s.records, s.saving.value.index);
    case Recovered(index) => FewListed(s.records, index);
    case _ =>
  }

  lemma FewListed(rs: seq<nat>, limit: nat)
    requires Ascending(rs)
    ensures Listed(Compact(rs, limit), limit) <= SNAPSHOTS_TO_KEEP
    ensures forall i :: i in Compact(rs, limit) ==> i in rs
  {
    CompactKeeps(rs, limit);
  }

  // ---- What is truncated and recorded, told from the steps alone --------------------------------------

  /** The index and overhead of the last save. */
  function LastSave(steps: seq<Step>): (nat, nat) {
    if steps == [] then (0, 0)
    else
      var last := steps[|steps| - 1];
      if last.CommitSave? then (last.index, last.overhead) else LastSave(steps[..|steps| - 1])
  }

  /** How far the log may be truncated: the index of the last save that came to its end less its overhead, until the
      log has been truncated or the node restarts. */
  function Requested(steps: seq<Step>): nat {
    if steps == [] then 0
    else
      var (before, last) := (steps[..|steps| - 1], steps[|steps| - 1]);
      if last.RemoveLog? || last.Restart? then 0
      else if last.FinishSave? && LastSave(before).0 > LastSave(before).1 then LastSave(before).0 - LastSave(before).1
      else Requested(before)
  }

  /** How far the log has been truncated. */
  function Truncated(steps: seq<Step>): nat {
    if steps == [] then 0
    else
      var (before, last) := (steps[..|steps| - 1], steps[|steps| - 1]);
      if last.RemoveLog? then Max(Truncated(before), Requested(before)) else Truncated(before)
  }

  /** An index that was saved on this node or received. */
  predicate Recorded(steps: seq<Step>, index: nat) {
    exists k :: 0 <= k < |steps|
                && ((steps[k].CommitSave? && !steps[k].exported && steps[k].index == index)
                    || steps[k] == ReceiveSnapshot(index))
  }

  ghost predicate Told(s: State, steps: seq<Step>) {
    && s.compactLogTo == Requested(steps) && s.compactedTo == Truncated(steps)
    && (s.saving.Some? ==> (s.saving.value.index, s.saving.value.overhead) == LastSave(steps))
  }

  lemma StepTold(s: State, steps: seq<Step>, step: Step)
    requires Told(s, steps) && Enabled(s, step)
    ensures Told(Next(s, step), steps + [step])
  {
    hide Insert, Compact, Newest;
    assert (steps + [step])[..|steps|] == steps;
  }

  lemma RecordedGrows(steps: seq<Step>, step: Step, index: nat)
    requires Recorded(steps, index)
    ensures Recorded(steps + [step], index)
  {
    var k :| 0 <= k < |steps| && ((steps[k].CommitSave? && !steps[k].exported && steps[k].index == index)
                                  || steps[k] == ReceiveSnapshot(index));
    assert (steps + [step])[k] == steps[k];
  }

  lemma StepRecords(s: State, steps: seq<Step>, step: Step, index: nat)
    requires Inv(s) && Enabled(s, step) && index in Next(s, step).records
    requires forall i :: i in s.records ==> Recorded(steps, i)
    ensures Recorded(steps + [step], index)
  {
    hide Recorded, Ascending, Newest, Listed;
    if index in s.records {
      RecordedGrows(steps, step, index);
    } else {
      InsertAdds(s.records, index);
      match step
      case CommitSave(i, _, _) => InsertAdds(s.records, i); LastRecorded(steps, step, index);
      case ReceiveSnapshot(i) => InsertAdds(s.records, i); LastRecorded(steps, step, index);
      case FinishSave => CompactKeeps(s.records, s.saving.value.index);
      case Recovered(i) => CompactKeeps(s.records, i);
      case _ =>
    }
  }

  lemma InsertAdds(rs: seq<nat>, index: nat)
    ensures forall i :: i in Insert(rs, index) <==> i in rs || i == index
  {
    var k := Listed(rs, index);
    assert rs == rs[..k] + rs[k..];
  }

  lemma LastRecorded(steps: seq<Step>, step: Step, index: nat)
    requires (step.CommitSave? && !step.exported && step.index == index) || step == ReceiveSnapshot(index)
    ensures Recorded(steps + [step], index)
  {
    assert (steps + [step])[|steps|] == step;
  }

  /** In every run: the log is to be truncated, and has been truncated, exactly as far as the saves that came to their
      end say, and only snapshots that were saved or received are recorded. */
  lemma {:induction false} TruncationFollowsSaves(steps: seq<Step>)
    requires Run(steps).Some?
    ensures Told(Run(steps).value, steps)
    ensures forall i :: i in Run(steps).value.records ==> Recorded(steps, i)
  {
    hide Enabled, Next, Told, Recorded, Inv;
    if steps != [] {
      var (front, step) := (steps[..|steps| - 1], steps[|steps| - 1]);
      TruncationFollowsSaves(front);
      RunInv(front);
      var s := Run(front).value;
      StepTold(s, front, step);
      assert front + [step] == steps;
      forall i | i in Next(s, step).records ensures Recorded(steps, i) {
        StepRecords(s, front, step, i);
      }
    } else {
      assert Told(INITIAL, []) by { InitialTold(); }
    }
  }

  lemma InitialTold()
    ensures Told(INITIAL, [])
  {
  }

  /** And the newest recorded snapshot never moves back. */
  lemma {:induction false} NewestNeverDecreases(steps: seq<Step>, more: seq<Step>)
    requires Run(steps).Some? && Run(steps + more).Some?
    ensures Newest(Run(steps).value.records) <= Newest(Run(steps + more).value.records)
  {
    hide Newest, Enabled, Next;
    if more == [] {
      assert steps + more == steps;
    } else {
      var k := |more| - 1;
      assert (steps + more)[..|steps + more| - 1] == steps + more[..k];
      NewestNeverDecreases(steps, more[..k]);
      RunInv(steps + more[..k]);
      StepInv(Run(steps + more[..k]).value, more[k]);
    }
  }
}
