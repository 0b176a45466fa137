/** What phased DDL guarantees about the registration of an object and about its data, for every run that
    avoids certain steps. */
module DdlGuarantees {
  import opened Bytes
  import opened PhasedDdl

  /** The run takes no step of this kind. */
  predicate Avoids(isIndex: bool, nodes: set<nat>, steps: seq<Step>, bad: (System, Step) -> bool) {
    steps != [] ==>
      var before := Run(isIndex, nodes, steps[..|steps| - 1]);
      && Avoids(isIndex, nodes, steps[..|steps| - 1], bad)
      && (before.Some? ==> !bad(before.value, steps[|steps| - 1]))
  }

  /** A node that holds up the phase does so until the command is given up. */
  lemma StalledStays(isIndex: bool, st: System, step: Step)
    requires Enabled(isIndex, st, step) && st.command.Some? && !CanEnd(st)
    requires step.NodeStep? || step.Crash? || step.Restart? || step.Fail?
    requires Inv(isIndex, st)
    ensures Next(isIndex, st, step).command.Some? && !CanEnd(Next(isIndex, st, step))
  {
    hide Do, AfterPhase, Phases;
    var st' := Next(isIndex, st, step);
    var n :| n in st.nodes && Stalled(st.command.value, st.nodes[n]);
    assert NodeOk(st, st.nodes[n]);
    if step.NodeStep? && step.node != n {
      NodeStepOthers(isIndex, st, step.node, step.spread, n);
    }
    assert n in st'.nodes && Stalled(st'.command.value, st'.nodes[n]);
  }

  // ---- Registration -----------------------------------------------------------------------------------

  /** The running command is a drop that is alive and has not deleted the row yet. */
  predicate DropPending(st: System) {
    && st.command.Some? && st.command.value.kind == DropMV && st.command.value.phase == 0 && st.command.value.alive
    && st.command.value.after != Some(2)
  }

  /** The steps that leave a view registered on some node when its row is deleted: a drop whose first broadcast
      misses a node that has the view registered, and the start of a node before the row is deleted,
      as long as the first phase of the drop can still end. */
  predicate SpoilsDrop(st: System, step: Step) {
    match step
    case Begin(kind, origin, reached) =>
      && kind == DropMV && (forall n :: n in reached && n in st.nodes ==> st.nodes[n].registered)
      && (exists n :: n in st.nodes && n !in reached && st.nodes[n].registered)
    case Restart(_) => DropPending(st) && st.persisted && CanEnd(st)
    case _ => false
  }

  predicate RegistrationOk(st: System) {
    && (forall n :: n in st.nodes && st.nodes[n].registered ==> st.persisted)
    && (DropPending(st) && st.persisted && CanEnd(st) ==>
          forall n :: n in st.nodes && st.nodes[n].registered ==> st.nodes[n].pos == Some(0))
  }

  lemma RegistrationStep(isIndex: bool, st: System, step: Step)
    requires Inv(isIndex, st) && RegistrationOk(st) && Enabled(isIndex, st, step) && !SpoilsDrop(st, step)
    ensures RegistrationOk(Next(isIndex, st, step))
  {
    var st' := Next(isIndex, st, step);
    CommandKeeps(isIndex, st, step);
    match step
    case Begin(_, _, _) => BeginRegistration(isIndex, st, step);
    case NodeStep(_, _) => NodeStepRegistration(isIndex, st, step);
    case EndPhase => hide Do, AfterPhase, Phases, NodeOk; assert CanEnd(st);
    case OriginStep => OriginStepRegistration(isIndex, st);
    case NextPhase(_) => hide Do, Phase; 
    case Fail => hide Do, Phase, AfterPhase;
    case Crash(_) => CrashRegistration(isIndex, st, step);
    case Settle => hide Do, Phase, AfterPhase;
    case Restart(_) => CrashRegistration(isIndex, st, step);
  }

  lemma BeginRegistration(isIndex: bool, st: System, step: Step)
    requires Inv(isIndex, st) && RegistrationOk(st) && Enabled(isIndex, st, step) && !SpoilsDrop(st, step)
      && step.Begin?
    ensures RegistrationOk(Next(isIndex, st, step))
  {
    hide Do, AfterPhase, NodeOk;
    var st' := Next(isIndex, st, step);
    if n :| n in step.reached && !st.nodes[n].registered && step.kind == DropMV {
      assert Stalled(st'.command.value, st'.nodes[n]);
    }
  }

  lemma NodeStepRegistration(isIndex: bool, st: System, step: Step)
    requires Inv(isIndex, st) && RegistrationOk(st) && Enabled(isIndex, st, step) && step.NodeStep?
    ensures RegistrationOk(Next(isIndex, st, step))
  {
    var st' := Next(isIndex, st, step);
    CommandKeeps(isIndex, st, step);
    if !CanEnd(st) {
      StalledStays(isIndex, st, step);
    }
    forall n | n in st'.nodes && st'.nodes[n].registered
      ensures st'.persisted && (DropPending(st') && CanEnd(st') ==> st'.nodes[n].pos == Some(0))
    {
      assert NodeOk(st, st.nodes[n]);
      if n != step.node {
        NodeStepOthers(isIndex, st, step.node, step.spread, n);
      }
    }
  }

  lemma OriginStepRegistration(isIndex: bool, st: System)
    requires Inv(isIndex, st) && RegistrationOk(st) && Enabled(isIndex, st, OriginStep)
    ensures RegistrationOk(Next(isIndex, st, OriginStep))
  {
    hide Phases;
    var st' := Next(isIndex, st, OriginStep);
    forall n | n in st.nodes ensures Answered(st.command.value, st.nodes[n]) {
      assert NodeOk(st, st.nodes[n]);
    }
    assert CanEnd(st);
  }

  lemma CrashRegistration(isIndex: bool, st: System, step: Step)
    requires Inv(isIndex, st) && RegistrationOk(st) && Enabled(isIndex, st, step) && !SpoilsDrop(st, step)
    requires step.Crash? || step.Restart?
    ensures RegistrationOk(Next(isIndex, st, step))
  {
    hide Do, Phase, AfterPhase, NodeOk, CommandOk;
    if st.command.Some? && !CanEnd(st) {
      StalledStays(isIndex, st, step);
    }
  }

  lemma {:induction false} RunRegistration(isIndex: bool, nodes: set<nat>, steps: seq<Step>)
    requires Run(isIndex, nodes, steps).Some? && Avoids(isIndex, nodes, steps, SpoilsDrop)
    ensures RegistrationOk(Run(isIndex, nodes, steps).value)
  {
    hide Enabled, Next, SpoilsDrop;
    if steps != [] {
      var before := steps[..|steps| - 1];
      RunRegistration(isIndex, nodes, before);
      RunInv(isIndex, nodes, before);
      RegistrationStep(isIndex, Run(isIndex, nodes, before).value, steps[|steps| - 1]);
    }
  }

  /** Whatever crashes, fails or is not reached, an object registered on any node has its row persisted. */
  lemma {:induction false} RegisteredIsPersisted(isIndex: bool, nodes: set<nat>, steps: seq<Step>, n: nat)
    requires Run(isIndex, nodes, steps).Some? && Avoids(isIndex, nodes, steps, SpoilsDrop)
    requires n in Run(isIndex, nodes, steps).value.nodes && Run(isIndex, nodes, steps).value.nodes[n].registered
    ensures Run(isIndex, nodes, steps).value.persisted
  {
    RunRegistration(isIndex, nodes, steps);
  }

  // ---- Data -------------------------------------------------------------------------------------------

  /** How many steps into the phase the fill is done. */
  function FilledBy(c: Command): (k: nat)
    ensures k <= Length(c)
    ensures forall i :: 0 <= i < Length(c) ==> (Phase(c.kind, c.phase)[i] == Fill <==> i + 1 == k)
  {
    if c.kind == CreateMV && c.phase == 1 then 1 else if c.kind == CreateIndex && c.phase == 0 then 2 else 0
  }

  /** The node has yet to fill, in the current phase. */
  predicate WillFill(c: Command, node: Node) {
    node.up && node.knows && node.pos.Some? && node.pos.value < FilledBy(c)
  }

  /** The running command can still fill. */
  predicate FillAhead(st: System) {
    && st.command.Some?
    && ((st.command.value.kind == CreateMV && st.command.value.phase == 0 && st.command.value.alive && CanEnd(st))
        || (exists n :: n in st.nodes && WillFill(st.command.value, st.nodes[n])))
  }

  /** The steps that leave data neither persisted nor marked: a node that has stored the prefixes starts again
      while a fill is still to come, and the second broadcast of a drop misses the dropping node. */
  predicate LosesMark(st: System, step: Step) {
    match step
    case Restart(n) => n in st.nodes && st.nodes[n].stored && !st.persisted && FillAhead(st)
    case NextPhase(reached) =>
      && st.command.Some? && st.command.value.kind == DropMV && st.command.value.phase == 0
      && st.command.value.origin in st.nodes
      && st.command.value.origin !in reached && st.nodes[st.command.value.origin].data
    case _ => false
  }

  /** Data is that of a persisted object or marked for deletion on its node, but for two cases: a node that never
      stored the prefixes, and a dropped view on another node than the one that dropped it. */
  predicate Covered(persisted: bool, dropper: Option<nat>, n: nat, node: Node) {
    node.data ==> persisted || node.toDelete || !node.stored || (dropper.Some? && dropper.value != n)
  }

  predicate DataOk(st: System) {
    && (forall n :: n in st.nodes ==> Covered(st.persisted, st.dropper, n, st.nodes[n]))
    && (!st.persisted && FillAhead(st) ==> forall n :: n in st.nodes && st.nodes[n].stored ==> st.nodes[n].toDelete)
    && (st.command.Some? && st.command.value.kind == DropMV && st.command.value.phase == 1 && st.command.value.alive
        && st.command.value.origin in st.nodes ==>
          var origin := st.nodes[st.command.value.origin]; origin.pos.Some? || !origin.data)
  }

  /** A command that cannot fill any more will not fill again. */
  lemma FillAheadBack(isIndex: bool, st: System, step: Step)
    requires Inv(isIndex, st) && Enabled(isIndex, st, step) && !step.Begin? && FillAhead(Next(isIndex, st, step))
    ensures FillAhead(st)
  {
    var st' := Next(isIndex, st, step);
    CommandKeeps(isIndex, st, step);
    if step.NextPhase? {
      AfterPhaseCanEnd(isIndex, st);
    } else {
      FillAheadStays(isIndex, st, step);
    }
  }

  lemma AfterPhaseCanEnd(isIndex: bool, st: System)
    requires Inv(isIndex, st) && st.command.Some? && st.command.value.after.Some?
    ensures CanEnd(st)
  {
    hide Phase, AfterPhase;
    forall n | n in st.nodes ensures !Stalled(st.command.value, st.nodes[n]) {
      assert NodeOk(st, st.nodes[n]);
    }
  }

  lemma FillAheadStays(isIndex: bool, st: System, step: Step)
    requires Inv(isIndex, st) && Enabled(isIndex, st, step) && !step.Begin? && !step.NextPhase?
    requires FillAhead(Next(isIndex, st, step))
    ensures FillAhead(st)
  {
    var (st', c) := (Next(isIndex, st, step), st.command.value);
    if n :| n in st'.nodes && WillFill(st'.command.value, st'.nodes[n]) {
      WillFillBack(isIndex, st, step, n);
    } else if step.NodeStep? || step.Crash? || step.Restart? || step.Fail? {
      if !CanEnd(st) {
        StalledStays(isIndex, st, step);
      }
    } else if c.after.Some? {
      AfterPhaseCanEnd(isIndex, st);
    }
  }

  lemma WillFillBack(isIndex: bool, st: System, step: Step, n: nat)
    requires Inv(isIndex, st) && Enabled(isIndex, st, step) && !step.Begin? && !step.NextPhase? && n in st.nodes
    requires var st' := Next(isIndex, st, step);
             st'.command.Some? && n in st'.nodes && WillFill(st'.command.value, st'.nodes[n])
    ensures st.command.Some? && WillFill(st.command.value, st.nodes[n])
  {
    hide AfterPhase, Phases, Phase;
    assert NodeOk(st, st.nodes[n]);
    if step.NodeStep? && step.node != n {
      NodeStepOthers(isIndex, st, step.node, step.spread, n);
    }
  }

  // The coverage of one node, step by step.

  lemma NodeStepCovers(isIndex: bool, st: System, step: Step, n: nat)
    requires Inv(isIndex, st) && DataOk(st) && Enabled(isIndex, st, step) && step.NodeStep? && n in st.nodes
    ensures var st' := Next(isIndex, st, step);
            && n in st'.nodes && Covered(st'.persisted, st'.dropper, n, st'.nodes[n])
            && (!st'.persisted && FillAhead(st') && st'.nodes[n].stored ==> st'.nodes[n].toDelete)
  {
    hide AfterPhase, Phases;
    var (st', c) := (Next(isIndex, st, step), st.command.value);
    assert NodeOk(st, st.nodes[n]) && NodeOk(st, st.nodes[step.node]);
    assert Covered(st.persisted, st.dropper, n, st.nodes[n]);
    if FillAhead(st') {
      FillAheadBack(isIndex, st, step);
    }
    if Current(c, st.nodes[step.node]) == Fill {
      assert WillFill(c, st.nodes[step.node]);
    }
  }

  lemma OriginStepCovers(isIndex: bool, st: System, n: nat)
    requires Inv(isIndex, st) && DataOk(st) && Enabled(isIndex, st, OriginStep) && n in st.nodes
    ensures var st' := Next(isIndex, st, OriginStep);
            && n in st'.nodes && Covered(st'.persisted, st'.dropper, n, st'.nodes[n])
            && (!st'.persisted && FillAhead(st') && st'.nodes[n].stored ==> st'.nodes[n].toDelete)
  {
    hide Phases;
    var (st', c) := (Next(isIndex, st, OriginStep), st.command.value);
    assert NodeOk(st, st.nodes[n]);
    assert Covered(st.persisted, st.dropper, n, st.nodes[n]);
    if FillAhead(st') {
      FillAheadBack(isIndex, st, OriginStep);
    }
  }

  lemma OtherStepCovers(isIndex: bool, st: System, step: Step, n: nat)
    requires Inv(isIndex, st) && DataOk(st) && Enabled(isIndex, st, step) && !LosesMark(st, step) && n in st.nodes
    requires !step.NodeStep? && !step.OriginStep?
    ensures var st' := Next(isIndex, st, step);
            && n in st'.nodes && Covered(st'.persisted, st'.dropper, n, st'.nodes[n])
            && (!st'.persisted && FillAhead(st') && st'.nodes[n].stored ==> st'.nodes[n].toDelete)
  {
    var st' := Next(isIndex, st, step);
    assert NodeOk(st, st.nodes[n]);
    assert Covered(st.persisted, st.dropper, n, st.nodes[n]);
    if !step.Begin? && FillAhead(st') {
      FillAheadBack(isIndex, st, step);
    }
    hide Do, Phase, AfterPhase, FillAhead;
  }

  /** What is left of a drop once its last phase is running. */
  lemma DropperStep(isIndex: bool, st: System, step: Step)
    requires Inv(isIndex, st) && DataOk(st) && Enabled(isIndex, st, step) && !LosesMark(st, step)
    requires var st' := Next(isIndex, st, step);
             && st'.command.Some? && st'.command.value.kind == DropMV && st'.command.value.phase == 1
             && st'.command.value.alive && st'.command.value.origin in st'.nodes
    ensures var st' := Next(isIndex, st, step);
            var origin := st'.nodes[st'.command.value.origin]; origin.pos.Some? || !origin.data
  {
    hide NodeOk, Phases, FillAhead;
    var c := st.command.value;
    match step
    case NodeStep(n, spread) =>
      hide AfterPhase;
      assert Current(c, st.nodes[n]) == DeleteData;
    case NextPhase(reached) => hide AfterPhase, Phase;
    case _ => hide Phase;
  }

  lemma DataStep(isIndex: bool, st: System, step: Step)
    requires Inv(isIndex, st) && DataOk(st) && Enabled(isIndex, st, step) && !LosesMark(st, step)
    ensures DataOk(Next(isIndex, st, step))
  {
    var st' := Next(isIndex, st, step);
    CommandKeeps(isIndex, st, step);
    hide Enabled, Next, Inv, LosesMark, FillAhead, Covered;
    forall n | n in st'.nodes
      ensures Covered(st'.persisted, st'.dropper, n, st'.nodes[n])
      ensures !st'.persisted && FillAhead(st') && st'.nodes[n].stored ==> st'.nodes[n].toDelete
    {
      match step
      case NodeStep(_, _) => NodeStepCovers(isIndex, st, step, n);
      case OriginStep => OriginStepCovers(isIndex, st, n);
      case _ => OtherStepCovers(isIndex, st, step, n);
    }
    if st'.command.Some? && st'.command.value.kind == DropMV && st'.command.value.phase == 1
       && st'.command.value.alive && st'.command.value.origin in st'.nodes {
      DropperStep(isIndex, st, step);
    }
  }

  lemma {:induction false} RunData(isIndex: bool, nodes: set<nat>, steps: seq<Step>)
    requires Run(isIndex, nodes, steps).Some? && Avoids(isIndex, nodes, steps, LosesMark)
    ensures DataOk(Run(isIndex, nodes, steps).value)
  {
    hide Enabled, Next, LosesMark;
    if steps != [] {
      var before := steps[..|steps| - 1];
      RunData(isIndex, nodes, before);
      RunInv(isIndex, nodes, before);
      DataStep(isIndex, Run(isIndex, nodes, before).value, steps[|steps| - 1]);
    }
  }

  /** Whatever crashes, fails or is not reached, data is that of a persisted object or will be deleted when its
      node starts, except on a node that never stored the prefixes and, for a dropped view, on another
      node than the dropping one. */
  lemma {:induction false} DataIsCovered(isIndex: bool, nodes: set<nat>, steps: seq<Step>, n: nat)
    requires Run(isIndex, nodes, steps).Some? && Avoids(isIndex, nodes, steps, LosesMark)
    requires n in Run(isIndex, nodes, steps).value.nodes && Run(isIndex, nodes, steps).value.nodes[n].data
    ensures var st := Run(isIndex, nodes, steps).value;
            var node := st.nodes[n];
            st.persisted || node.toDelete || !node.stored || (st.dropper.Some? && st.dropper.value != n)
  {
    RunData(isIndex, nodes, steps);
    var st := Run(isIndex, nodes, steps).value;
    assert Covered(st.persisted, st.dropper, n, st.nodes[n]);
  }
}
