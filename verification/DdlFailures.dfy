/** Every step that the guarantees of phased DDL leave out does break them: from any state that a run can
    reach, the command can go on to a state in which the guarantee fails. And runs from the start that
    show why each exception of the guarantees is needed. */
module DdlFailures {
  import opened Bytes
  import opened PhasedDdl
  import opened DdlGuarantees

  lemma {:induction false} FromFrom(isIndex: bool, st: System, steps: seq<Step>, more: seq<Step>)
    requires From(isIndex, st, steps).Some?
    ensures From(isIndex, st, steps + more) == From(isIndex, From(isIndex, st, steps).value, more)
  {
    hide Enabled, Next;
    if more == [] {
      assert steps + more == steps;
    } else {
      FromFrom(isIndex, st, steps, more[..|more| - 1]);
      assert (steps + more)[..|steps + more| - 1] == steps + more[..|more| - 1];
    }
  }

  lemma FromSnoc(isIndex: bool, st: System, steps: seq<Step>, step: Step)
    requires From(isIndex, st, steps).Some? && Enabled(isIndex, From(isIndex, st, steps).value, step)
    ensures From(isIndex, st, steps + [step]) == Some(Next(isIndex, From(isIndex, st, steps).value, step))
  {
    hide Enabled, Next;
    assert (steps + [step])[..|steps|] == steps;
  }

  // ---- A phase that can end does end ------------------------------------------------------------------

  /** The same system, but for what nodes that had not answered have done since. */
  predicate SameBut(st: System, st': System) {
    && st'.command == st.command && st'.persisted == st.persisted && st'.dropper == st.dropper
    && st'.nodes.Keys == st.nodes.Keys && st.command.Some?
    && (forall n :: n in st.nodes ==>
          && st'.nodes[n].up == st.nodes[n].up && st'.nodes[n].knows == st.nodes[n].knows
          && (Answered(st.command.value, st.nodes[n]) ==> st'.nodes[n] == st.nodes[n]))
  }

  /** One node does what is left of its phase. */
  lemma {:induction false} FinishNode(isIndex: bool, st: System, n: nat) returns (steps: seq<Step>, st': System)
    requires Inv(isIndex, st) && st.command.Some? && n in st.nodes && !Stalled(st.command.value, st.nodes[n])
    ensures From(isIndex, st, steps) == Some(st') && Inv(isIndex, st') && SameBut(st, st')
    ensures Answered(st.command.value, st'.nodes[n])
    ensures forall m :: m in st.nodes && m != n ==> st'.nodes[m] == st.nodes[m]
    decreases if Answered(st.command.value, st.nodes[n]) then 0 else Length(st.command.value) - st.nodes[n].pos.value
  {
    if Answered(st.command.value, st.nodes[n]) {
      return [], st;
    }
    var step := NodeStep(n, {});
    var next := Next(isIndex, st, step);
    StepInv(isIndex, st, step);
    OneStep(isIndex, st, n);
    FromSnoc(isIndex, st, [], step);
    assert [] + [step] == [step];
    var more, last := FinishNode(isIndex, next, n);
    FromFrom(isIndex, st, [step], more);
    return [step] + more, last;
  }

  lemma OneStep(isIndex: bool, st: System, n: nat)
    requires Inv(isIndex, st) && Enabled(isIndex, st, NodeStep(n, {}))
    ensures var st' := Next(isIndex, st, NodeStep(n, {}));
            && SameBut(st, st') && !Stalled(st.command.value, st'.nodes[n])
            && st'.nodes[n].pos == Some(st.nodes[n].pos.value + 1)
            && (forall m :: m in st.nodes && m != n ==> st'.nodes[m] == st.nodes[m])
  {
    hide AfterPhase, Phases;
    assert NodeOk(st, st.nodes[n]);
  }

  /** The nodes that have not answered yet. */
  function Waiting(st: System): set<nat>
    requires st.command.Some?
  {
    set n | n in st.nodes && !Answered(st.command.value, st.nodes[n])
  }

  lemma {:induction false} FinishPhase(isIndex: bool, st: System) returns (steps: seq<Step>, st': System)
    requires Inv(isIndex, st) && st.command.Some? && CanEnd(st)
    ensures From(isIndex, st, steps) == Some(st') && Inv(isIndex, st') && SameBut(st, st') && PhaseDone(st')
    decreases |Waiting(st)|
  {
    hide Enabled, Next, Inv;
    if Waiting(st) == {} {
      assert PhaseDone(st) by {
        forall n | n in st.nodes ensures Answered(st.command.value, st.nodes[n]) {
          assert n !in Waiting(st);
        }
      }
      return [], st;
    }
    var n :| n in Waiting(st);
    var first, next := FinishNode(isIndex, st, n);
    StillCanEnd(st, next, n);
    var more, last := FinishPhase(isIndex, next);
    FromFrom(isIndex, st, first, more);
    return first + more, last;
  }

  lemma StillCanEnd(st: System, st': System, n: nat)
    requires st.command.Some? && SameBut(st, st') && CanEnd(st) && n in Waiting(st)
    requires Answered(st.command.value, st'.nodes[n])
    requires forall m :: m in st.nodes && m != n ==> st'.nodes[m] == st.nodes[m]
    ensures CanEnd(st') && |Waiting(st')| < |Waiting(st)|
  {
    hide Phase;
    assert Waiting(st') == Waiting(st) - {n};
  }

  // ---- Registration -----------------------------------------------------------------------------------

  /** A pending drop that can end deletes the row, whatever is registered on nodes it does not wait for. */
  lemma DropGoesOn(isIndex: bool, st: System, n: nat) returns (steps: seq<Step>, st': System)
    requires Inv(isIndex, st) && DropPending(st) && CanEnd(st)
    requires n in st.nodes && st.nodes[n].registered && Answered(st.command.value, st.nodes[n])
    ensures From(isIndex, st, steps) == Some(st') && n in st'.nodes && st'.nodes[n].registered && !st'.persisted
  {
    var c := st.command.value;
    if c.after.None? {
      var first, done := FinishPhase(isIndex, st);
      FromSnoc(isIndex, st, first, EndPhase);
      var next := Next(isIndex, done, EndPhase);
      StepInv(isIndex, done, EndPhase);
      var more, last := RowIsDeleted(isIndex, next, n);
      FromFrom(isIndex, st, first + [EndPhase], more);
      return first + [EndPhase] + more, last;
    } else {
      steps, st' := RowIsDeleted(isIndex, st, n);
    }
  }

  lemma RowIsDeleted(isIndex: bool, st: System, n: nat) returns (steps: seq<Step>, st': System)
    requires Inv(isIndex, st) && DropPending(st) && st.command.value.after.Some?
    requires n in st.nodes && st.nodes[n].registered
    ensures From(isIndex, st, steps) == Some(st') && n in st'.nodes && st'.nodes[n].registered && !st'.persisted
    decreases 2 - st.command.value.after.value
  {
    hide Phase, Phases, NodeOk;
    var next := Next(isIndex, st, OriginStep);
    FromSnoc(isIndex, st, [], OriginStep);
    assert [] + [OriginStep] == [OriginStep];
    if st.command.value.after.value == 1 {
      return [OriginStep], next;
    }
    StepInv(isIndex, st, OriginStep);
    var more, last := RowIsDeleted(isIndex, next, n);
    FromFrom(isIndex, st, [OriginStep], more);
    return [OriginStep] + more, last;
  }

  /** Each step that `RegisteredIsPersisted` leaves out breaks it: in whatever run such a step is taken, the drop
      can go on so that a node has the view registered without its row. */
  lemma {:induction false} SpoiltDrop(isIndex: bool, nodes: set<nat>, steps: seq<Step>, step: Step)
    returns (more: seq<Step>, n: nat)
    requires Run(isIndex, nodes, steps).Some? && Enabled(isIndex, Run(isIndex, nodes, steps).value, step)
    requires SpoilsDrop(Run(isIndex, nodes, steps).value, step)
    ensures Run(isIndex, nodes, steps + [step] + more).Some?
    ensures var st := Run(isIndex, nodes, steps + [step] + more).value;
            n in st.nodes && st.nodes[n].registered && !st.persisted
  {
    RunInv(isIndex, nodes, steps);
    var st := Run(isIndex, nodes, steps).value;
    FromSnoc(isIndex, Initial(nodes), steps, step);
    StepInv(isIndex, st, step);
    n := SpoiltState(isIndex, st, step);
    var st';
    more, st' := DropGoesOn(isIndex, Next(isIndex, st, step), n);
    FromFrom(isIndex, Initial(nodes), steps + [step], more);
  }

  lemma SpoiltState(isIndex: bool, st: System, step: Step) returns (n: nat)
    requires Inv(isIndex, st) && Enabled(isIndex, st, step) && SpoilsDrop(st, step)
    ensures var st' := Next(isIndex, st, step);
            && DropPending(st') && CanEnd(st')
            && n in st'.nodes && st'.nodes[n].registered && Answered(st'.command.value, st'.nodes[n])
  {
    hide Do, AfterPhase, NodeOk;
    match step
    case Begin(_, _, reached) => n :| n in st.nodes && n !in reached && st.nodes[n].registered;
    case Restart(m) => n := m; assert !Stalled(st.command.value, st.nodes[n]);
  }

  // ---- Data -------------------------------------------------------------------------------------------

  /** A fill that is still to come can reach any node. */
  lemma FillGoesOn(isIndex: bool, st: System, n: nat) returns (steps: seq<Step>, st': System)
    requires Inv(isIndex, st) && FillAhead(st) && !st.persisted && n in st.nodes && !st.nodes[n].knows
    requires CanEnd(st) ==> Answered(st.command.value, st.nodes[n])
    ensures From(isIndex, st, steps) == Some(st') && n in st'.nodes
    ensures st'.nodes[n].data && st'.nodes[n].stored == st.nodes[n].stored
    ensures st'.nodes[n].toDelete == st.nodes[n].toDelete && !st'.persisted && st'.dropper == st.dropper
  {
    if m :| m in st.nodes && WillFill(st.command.value, st.nodes[m]) {
      steps, st' := FillNow(isIndex, st, m, n);
    } else {
      var first, next := SecondPhase(isIndex, st);
      var more, last := FillNow(isIndex, next, st.command.value.origin, n);
      FromFrom(isIndex, st, first, more);
      return first + more, last;
    }
  }

  lemma FillNow(isIndex: bool, st: System, m: nat, n: nat) returns (steps: seq<Step>, st': System)
    requires Inv(isIndex, st) && st.command.Some? && !st.persisted && n in st.nodes && m in st.nodes && m != n
    requires WillFill(st.command.value, st.nodes[m])
    ensures From(isIndex, st, steps) == Some(st') && n in st'.nodes
    ensures st'.nodes[n] == st.nodes[n].(data := true) && !st'.persisted && st'.dropper == st.dropper
    decreases FilledBy(st.command.value) - st.nodes[m].pos.value
  {
    hide AfterPhase, Phases, NodeOk;
    var (c, step) := (st.command.value, NodeStep(m, {n}));
    var next := Next(isIndex, st, step);
    FromSnoc(isIndex, st, [], step);
    assert [] + [step] == [step];
    if st.nodes[m].pos.value + 1 == FilledBy(c) {
      assert Current(c, st.nodes[m]) == Fill;
      return [step], next;
    }
    StepInv(isIndex, st, step);
    var more, last := FillNow(isIndex, next, m, n);
    FromFrom(isIndex, st, [step], more);
    return [step] + more, last;
  }

  /** The creation of a view that can end its first phase goes on to the second one, on its originating node. */
  lemma SecondPhase(isIndex: bool, st: System) returns (steps: seq<Step>, st': System)
    requires Inv(isIndex, st) && st.command.Some? && CanEnd(st)
    requires st.command.value.kind == CreateMV && st.command.value.phase == 0 && st.command.value.alive
    ensures From(isIndex, st, steps) == Some(st') && Inv(isIndex, st') && st'.nodes.Keys == st.nodes.Keys
    ensures !st'.persisted && st'.dropper == st.dropper
      && st'.command == Some(st.command.value.(phase := 1, after := None))
    ensures WillFill(st'.command.value, st'.nodes[st.command.value.origin])
    ensures forall n :: n in st.nodes && Answered(st.command.value, st.nodes[n]) ==>
              st'.nodes[n] == st.nodes[n].(pos := st'.nodes[n].pos)
  {
    var origin := st.command.value.origin;
    var first, done := [], st;
    if st.command.value.after.None? {
      var part, ended := FinishPhase(isIndex, st);
      FromSnoc(isIndex, st, part, EndPhase);
      StepInv(isIndex, ended, EndPhase);
      first, done := part + [EndPhase], Next(isIndex, ended, EndPhase);
    }
    var step := NextPhase({origin});
    assert Enabled(isIndex, done, step);
    FromSnoc(isIndex, st, first, step);
    StepInv(isIndex, done, step);
    return first + [step], Next(isIndex, done, step);
  }

  /** A drop whose second phase misses its own node still removes that node's prefixes from to_delete. */
  lemma MissedDropGoesOn(isIndex: bool, st: System) returns (steps: seq<Step>, st': System)
    requires Inv(isIndex, st) && st.command.Some? && CanEnd(st) && st.command.value.after.None?
    requires st.command.value.kind == DropMV && st.command.value.phase == 1 && st.command.value.alive
    requires var origin := st.nodes[st.command.value.origin]; origin.pos.None? && origin.data
    ensures From(isIndex, st, steps) == Some(st')
    ensures var n := st.command.value.origin;
            && n in st'.nodes && st'.nodes[n].data && !st'.persisted && !st'.nodes[n].toDelete
            && st'.dropper == Some(n) && st'.nodes[n].stored
  {
    var part, ended := FinishPhase(isIndex, st);
    FromSnoc(isIndex, st, part, EndPhase);
    var done := Next(isIndex, ended, EndPhase);
    FromSnoc(isIndex, st, part + [EndPhase], OriginStep);
    assert NodeOk(st, st.nodes[st.command.value.origin]);
    return part + [EndPhase] + [OriginStep], Next(isIndex, done, OriginStep);
  }

  lemma RestartedState(isIndex: bool, st: System, n: nat)
    requires Inv(isIndex, st) && Enabled(isIndex, st, Restart(n)) && LosesMark(st, Restart(n))
    ensures var st' := Next(isIndex, st, Restart(n));
            && FillAhead(st') && !st'.persisted && n in st'.nodes && !st'.nodes[n].knows && st'.dropper.None?
            && st'.nodes[n].stored && !st'.nodes[n].toDelete
            && (CanEnd(st') ==> Answered(st'.command.value, st'.nodes[n]))
  {
    hide Do, Phase, AfterPhase, Phases;
    var (st', c) := (Next(isIndex, st, Restart(n)), st.command.value);
    assert NodeOk(st, st.nodes[n]);
    if m :| m in st.nodes && WillFill(c, st.nodes[m]) {
      assert WillFill(c, st'.nodes[m]);
    } else {
      assert !Stalled(c, st.nodes[n]);
      forall m | m in st'.nodes ensures !Stalled(c, st'.nodes[m]) {
        assert !Stalled(c, st.nodes[m]);
      }
    }
    assert Creating(c);
    assert !Answered(c, st'.nodes[n]) ==> Stalled(c, st'.nodes[n]);
  }

  lemma MissedState(isIndex: bool, st: System, reached: set<nat>)
    requires Inv(isIndex, st) && Enabled(isIndex, st, NextPhase(reached)) && LosesMark(st, NextPhase(reached))
    ensures var (st', c) := (Next(isIndex, st, NextPhase(reached)), st.command.value);
            && st'.command == Some(c.(phase := 1, after := None)) && c.kind == DropMV && c.alive && CanEnd(st')
            && c.origin in st'.nodes && st'.nodes[c.origin].pos.None? && st'.nodes[c.origin].data
  {
    hide Do;
    var (st', c) := (Next(isIndex, st, NextPhase(reached)), st.command.value);
    forall n | n in st'.nodes ensures !Stalled(st'.command.value, st'.nodes[n]) {
      assert NodeOk(st, st.nodes[n]);
    }
  }

  /** Each step that `DataIsCovered` leaves out breaks it: in whatever run such a step is taken, the command can
      go on so that a node has data that is neither persisted nor marked, in none of the exceptions. */
  lemma {:induction false} LostMark(isIndex: bool, nodes: set<nat>, steps: seq<Step>, step: Step)
    returns (more: seq<Step>, n: nat)
    requires Run(isIndex, nodes, steps).Some? && Enabled(isIndex, Run(isIndex, nodes, steps).value, step)
    requires LosesMark(Run(isIndex, nodes, steps).value, step)
    ensures Run(isIndex, nodes, steps + [step] + more).Some?
    ensures var st := Run(isIndex, nodes, steps + [step] + more).value;
            n in st.nodes && !Covered(st.persisted, st.dropper, n, st.nodes[n])
  {
    RunInv(isIndex, nodes, steps);
    var st := Run(isIndex, nodes, steps).value;
    FromSnoc(isIndex, Initial(nodes), steps, step);
    StepInv(isIndex, st, step);
    var st';
    if step.Restart? {
      RestartedState(isIndex, st, step.node);
      n := step.node;
      more, st' := FillGoesOn(isIndex, Next(isIndex, st, step), n);
    } else {
      MissedState(isIndex, st, step.reached);
      n := st.command.value.origin;
      more, st' := MissedDropGoesOn(isIndex, Next(isIndex, st, step));
    }
    FromFrom(isIndex, Initial(nodes), steps + [step], more);
  }
}
