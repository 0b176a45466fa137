/** Phased DDL: a command is broadcast phase after phase, with steps of the originating node in between. A
    broadcast skips every node it does not reach, any node may crash at any moment and come back, and any
    command may fail. One materialized view or one index is followed through its creation and its
    dropping. Every step of a phase is a step of the model. */
module PhasedDdl {
  import opened Bytes

  datatype Kind = CreateMV | CreateIndex | DropMV

  datatype Action =
    | StoreToDelete | RemoveToDelete | LoadInitialState | Fill | DeleteData
    | Register | Unregister | PersistRow | DeleteRow

  /** What a node does in a phase, in order. */
  function Phase(kind: Kind, phase: nat): seq<Action> {
    match kind
    case CreateMV => (match phase
      case 0 => [StoreToDelete, LoadInitialState]
      case 1 => [Fill]
      case 2 => [Register, RemoveToDelete]
      case _ => [])
    case CreateIndex => (match phase
      case 0 => [StoreToDelete, Fill]
      case 1 => [RemoveToDelete, Register]
      case _ => [])
    case DropMV => (match phase
      case 0 => [Unregister]
      case 1 => [DeleteData]
      case _ => [])
  }

  /** What the originating node does after all nodes have answered a phase. */
  function AfterPhase(kind: Kind, phase: nat): seq<Action> {
    if kind == CreateMV && phase == 1 then [PersistRow]
    else if kind == CreateIndex && phase == 0 then [PersistRow]
    else if kind == DropMV && phase == 0 then [StoreToDelete, DeleteRow]
    else if kind == DropMV && phase == 1 then [RemoveToDelete]
    else []
  }

  function Phases(kind: Kind): nat { if kind == CreateMV then 3 else 2 }

  /** A node: whether it is up and has the object registered in memory; whether its store has the object's
      prefixes in the to_delete table and data of the object; whether it has ever stored the prefixes;
      whether it knows the running command; and, if the broadcast of the current phase has reached it, how
      far it came in that phase. */
  datatype Node = Node(up: bool, registered: bool, toDelete: bool, data: bool, stored: bool,
                       knows: bool, pos: Option<nat>)

  /** The running command. `after` is the progress of the originating node once the phase is done; a
      command that is not alive has failed, was cancelled, or has lost its originating node. */
  datatype Command = Command(kind: Kind, origin: nat, phase: nat, after: Option<nat>, alive: bool)

  /** `persisted` is the object's row in the system tables, which is replicated. `dropper` is the last node
      that deleted it, `began` whether the object's creation has begun. */
  datatype System = System(nodes: map<nat, Node>, persisted: bool, command: Option<Command>, began: bool,
                           dropper: Option<nat>)

  /** What an action does to the node that does it; `filled` says whether rows are loaded into its store. */
  function Do(node: Node, a: Action, filled: bool): Node {
    match a
    case StoreToDelete => node.(toDelete := true, stored := true)
    case RemoveToDelete => node.(toDelete := false)
    case LoadInitialState => node.(data := node.data || filled)
    case Fill => node.(data := node.data || filled)
    case DeleteData => node.(data := false)
    case Register => node.(registered := true)
    case Unregister => node.(registered := false)
    case PersistRow => node
    case DeleteRow => node
  }

  datatype Step =
    | Begin(kind: Kind, origin: nat, reached: set<nat>)
    | NodeStep(node: nat, spread: set<nat>)
    | EndPhase
    | OriginStep
    | NextPhase(reached: set<nat>)
    | Fail
    | Crash(node: nat)
    | Settle
    | Restart(node: nat)

  function Length(c: Command): nat { |Phase(c.kind, c.phase)| }

  /** The broadcast has not reached the node, or the node has done its part of the phase. */
  predicate Answered(c: Command, node: Node) { node.pos.Some? ==> node.pos.value >= Length(c) }

  function Current(c: Command, node: Node): Action
    requires !Answered(c, node)
  {
    Phase(c.kind, c.phase)[node.pos.value]
  }

  /** The node can go on with the phase. A node without the view answers a drop with an error. */
  predicate CanStep(c: Command, node: Node) {
    node.up && node.knows && !Answered(c, node) && (Current(c, node) == Unregister ==> node.registered)
  }

  /** The broadcast waits for an answer that will not come. */
  predicate Stalled(c: Command, node: Node) { !Answered(c, node) && !CanStep(c, node) }

  /** Every node that the broadcast of the phase has reached has answered it. */
  predicate PhaseDone(st: System)
    requires st.command.Some?
  {
    forall n :: n in st.nodes ==> Answered(st.command.value, st.nodes[n])
  }

  /** No node keeps the phase from ending. */
  predicate CanEnd(st: System)
    requires st.command.Some?
  {
    forall n :: n in st.nodes ==> !Stalled(st.command.value, st.nodes[n])
  }

  /** A broadcast reaches at least one node, and only nodes that are up. */
  predicate Reaches(st: System, reached: set<nat>) {
    reached != {} && forall n :: n in reached ==> n in st.nodes && st.nodes[n].up
  }

  predicate Enabled(isIndex: bool, st: System, step: Step) {
    match step
    case Begin(kind, origin, reached) =>
      && st.command.None? && origin in st.nodes && st.nodes[origin].up && Reaches(st, reached)
      && (if kind == DropMV then !isIndex && st.nodes[origin].registered
          else !st.began && (isIndex <==> kind == CreateIndex))
    case NodeStep(n, spread) => st.command.Some? && n in st.nodes && CanStep(st.command.value, st.nodes[n])
    case EndPhase => st.command.Some? && st.command.value.alive && st.command.value.after.None? && PhaseDone(st)
    case OriginStep =>
      && st.command.Some? && st.command.value.alive && st.command.value.after.Some?
      && st.command.value.origin in st.nodes
      && st.command.value.after.value < |AfterPhase(st.command.value.kind, st.command.value.phase)|
    case NextPhase(reached) =>
      && st.command.Some? && st.command.value.alive && st.command.value.after.Some?
      && st.command.value.after.value == |AfterPhase(st.command.value.kind, st.command.value.phase)|
      && (st.command.value.phase + 1 < Phases(st.command.value.kind) ==> Reaches(st, reached))
    case Fail => st.command.Some? && st.command.value.alive
    case Crash(n) => n in st.nodes && st.nodes[n].up
    case Settle => st.command.Some? && !st.command.value.alive
    case Restart(n) => n in st.nodes && !st.nodes[n].up
  }

  /** Starting a node: data whose prefixes are in to_delete is removed unless the tables table has the object,
      where indexes are not looked for; then what is persisted is registered. The node has lost the
      running command, and ignores its later phases. */
  function StartNode(isIndex: bool, st: System, n: nat): Node
    requires n in st.nodes
  {
    var node := st.nodes[n];
    var found := st.persisted && !isIndex;
    node.(up := true, registered := st.persisted, toDelete := false, data := node.data && !(node.toDelete && !found))
  }

  function Next(isIndex: bool, st: System, step: Step): System
    requires Enabled(isIndex, st, step)
  {
    match step
    case Begin(kind, origin, reached) =>
      st.(command := Some(Command(kind, origin, 0, None, true)), began := true,
          nodes := map n | n in st.nodes ::
            st.nodes[n].(knows := n in reached || n == origin, pos := if n in reached then Some(0) else None))
    case NodeStep(n, spread) =>
      var (node, a) := (st.nodes[n], Current(st.command.value, st.nodes[n]));
      st.(nodes := map m | m in st.nodes ::
            if m == n then Do(node, a, n in spread).(pos := Some(node.pos.value + 1))
            else if a == Fill && m in spread then st.nodes[m].(data := true) else st.nodes[m])
    case EndPhase => st.(command := Some(st.command.value.(after := Some(0))))
    case OriginStep =>
      var c := st.command.value;
      var a := AfterPhase(c.kind, c.phase)[c.after.value];
      st.(nodes := st.nodes[c.origin := Do(st.nodes[c.origin], a, false)],
          persisted := a == PersistRow || (a != DeleteRow && st.persisted),
          dropper := if a == DeleteRow then Some(c.origin) else st.dropper,
          command := Some(c.(after := Some(c.after.value + 1))))
    case NextPhase(reached) =>
      var c := st.command.value;
      if c.phase + 1 < Phases(c.kind)
      then st.(command := Some(c.(phase := c.phase + 1, after := None)),
               nodes := map n | n in st.nodes ::
                 st.nodes[n].(pos := if n in reached && st.nodes[n].knows then Some(0) else None))
      else st.(command := None)
    case Fail => st.(command := Some(st.command.value.(alive := false)))
    case Crash(n) =>
      st.(nodes := st.nodes[n := st.nodes[n].(up := false, registered := false, knows := false)],
          command := if st.command.Some? && st.command.value.origin == n
                     then Some(st.command.value.(alive := false)) else st.command)
    case Settle => st.(command := None)
    case Restart(n) => st.(nodes := st.nodes[n := StartNode(isIndex, st, n)])
  }

  function Initial(nodes: set<nat>): System {
    System(map n | n in nodes :: Node(true, false, false, false, false, false, None), false, None, false, None)
  }

  /** Taking steps from a state; none of them can be taken where the next one is not enabled. */
  function From(isIndex: bool, st: System, steps: seq<Step>): Option<System> {
    if steps == [] then Some(st)
    else
      var before := From(isIndex, st, steps[..|steps| - 1]);
      if before.Some? && Enabled(isIndex, before.value, steps[|steps| - 1])
      then Some(Next(isIndex, before.value, steps[|steps| - 1])) else None
  }

  function Run(isIndex: bool, nodes: set<nat>, steps: seq<Step>): Option<System> {
    From(isIndex, Initial(nodes), steps)
  }

  // ---- What holds in every run ------------------------------------------------------------------------

  predicate Creating(c: Command) { c.kind != DropMV }

  /** The originating node of a drop has stored the prefixes and has not removed them yet. */
  predicate DropMarked(c: Command) {
    && c.kind == DropMV
    && (if c.phase == 0 then c.after.Some? && c.after.value >= 1 else c.after != Some(1))
  }

  /** What holds of the running command itself. */
  predicate CommandOk(isIndex: bool, st: System, c: Command) {
    && st.began && c.phase < Phases(c.kind) && c.origin in st.nodes && (isIndex <==> c.kind == CreateIndex)
    && (c.after.Some? ==> c.after.value <= |AfterPhase(c.kind, c.phase)|)
    && (c.alive ==> st.nodes[c.origin].up && st.nodes[c.origin].knows)
    && (Creating(c) ==> st.dropper.None?)
    && (c.kind == CreateMV ==> (st.persisted <==> c.phase == 2 || (c.phase == 1 && c.after == Some(1))))
    && (c.kind == CreateIndex ==> (st.persisted <==> c.phase == 1 || c.after == Some(1)))
    && (c.kind == DropMV && (c.phase == 1 || c.after == Some(2)) ==> !st.persisted && st.dropper == Some(c.origin))
    && (c.alive && DropMarked(c) ==> st.nodes[c.origin].toDelete)
  }

  /** How far a node is in the running command, and what that says about it. */
  predicate Following(c: Command, node: Node) {
    node.pos.Some? ==>
      && node.pos.value <= Length(c) && (c.after.Some? ==> node.pos.value == Length(c))
      && (c.kind == DropMV && c.phase == 1 && node.pos.value == 1 ==> !node.data)
      && (c.kind == CreateMV && c.phase == 0 && node.knows && node.pos.value >= 1 ==> node.toDelete)
      && (c.kind == CreateMV && c.phase == 2 && node.up && node.pos.value >= 1 ==> node.registered)
      && (c.kind == CreateMV && c.phase == 2 && node.pos.value == 2 ==> !node.toDelete)
      && (c.kind == CreateIndex && c.phase == 1 && node.up && node.pos.value == 2 ==> node.registered)
      && (c.kind == CreateIndex && c.phase == 1 && node.pos.value >= 1 ==> !node.toDelete)
  }

  predicate NodeOk(st: System, node: Node) {
    && (node.registered || node.knows ==> node.up) && (node.toDelete ==> node.stored)
    && (!st.began ==> !node.stored && !node.data && !node.registered)
    && (st.command.Some? ==> Following(st.command.value, node))
  }

  predicate Inv(isIndex: bool, st: System) {
    && TablesOk(isIndex, st)
    && (forall n :: n in st.nodes ==> NodeOk(st, st.nodes[n]))
  }

  // Each step, seen from one node.

  lemma NodeStepSelf(isIndex: bool, st: System, n: nat, spread: set<nat>)
    requires Inv(isIndex, st) && Enabled(isIndex, st, NodeStep(n, spread))
    ensures var st' := Next(isIndex, st, NodeStep(n, spread)); n in st'.nodes && NodeOk(st', st'.nodes[n])
  {
    hide AfterPhase, Phases;
    assert NodeOk(st, st.nodes[n]);
  }

  /** Only a fill reaches other nodes. */
  lemma NodeStepOthers(isIndex: bool, st: System, n: nat, spread: set<nat>, m: nat)
    requires Enabled(isIndex, st, NodeStep(n, spread)) && m in st.nodes && m != n
    ensures var st' := Next(isIndex, st, NodeStep(n, spread));
            && m in st'.nodes && st'.nodes[m] == st.nodes[m].(data := st'.nodes[m].data)
            && (st.nodes[m].data ==> st'.nodes[m].data)
            && (st'.nodes[m].data && !st.nodes[m].data ==>
                  m in spread && Current(st.command.value, st.nodes[n]) == Fill)
  {
    hide AfterPhase, Phases;
  }

  lemma NodeStepKeeps(isIndex: bool, st: System, n: nat, spread: set<nat>, m: nat)
    requires Inv(isIndex, st) && Enabled(isIndex, st, NodeStep(n, spread)) && m in st.nodes && m != n
    ensures var st' := Next(isIndex, st, NodeStep(n, spread)); m in st'.nodes && NodeOk(st', st'.nodes[m])
  {
    hide AfterPhase, Phases;
    assert NodeOk(st, st.nodes[m]);
    NodeStepOthers(isIndex, st, n, spread, m);
  }

  lemma OriginStepKeeps(isIndex: bool, st: System, m: nat)
    requires Inv(isIndex, st) && Enabled(isIndex, st, OriginStep) && m in st.nodes
    ensures var st' := Next(isIndex, st, OriginStep); m in st'.nodes && NodeOk(st', st'.nodes[m])
  {
    hide Phases;
    assert NodeOk(st, st.nodes[m]);
  }

  lemma PhaseStepKeeps(isIndex: bool, st: System, step: Step, m: nat)
    requires Inv(isIndex, st) && Enabled(isIndex, st, step) && m in st.nodes
    requires step.Begin? || step.EndPhase? || step.NextPhase?
    ensures var st' := Next(isIndex, st, step); m in st'.nodes && NodeOk(st', st'.nodes[m])
  {
    hide Do;
    assert NodeOk(st, st.nodes[m]);
    if step.EndPhase? {
      assert Answered(st.command.value, st.nodes[m]);
    }
  }

  lemma FailureKeeps(isIndex: bool, st: System, step: Step, m: nat)
    requires Inv(isIndex, st) && Enabled(isIndex, st, step) && m in st.nodes
    requires step.Fail? || step.Crash? || step.Settle?
    ensures var st' := Next(isIndex, st, step); m in st'.nodes && NodeOk(st', st'.nodes[m])
  {
    hide Do, Phase, AfterPhase, Phases, CommandOk;
    assert NodeOk(st, st.nodes[m]);
  }

  lemma StartKeeps(isIndex: bool, st: System, n: nat, m: nat)
    requires Inv(isIndex, st) && Enabled(isIndex, st, Restart(n)) && m in st.nodes
    ensures var st' := Next(isIndex, st, Restart(n)); m in st'.nodes && NodeOk(st', st'.nodes[m])
  {
    hide Do, Phase, AfterPhase, Phases;
    assert NodeOk(st, st.nodes[m]);
  }

  /** The running command and the system tables after a step. */
  predicate TablesOk(isIndex: bool, st: System) {
    && (st.command.Some? ==> CommandOk(isIndex, st, st.command.value))
    && (!st.began ==> !st.persisted) && (st.dropper.Some? ==> st.began && !st.persisted)
  }

  lemma NodeStepCommand(isIndex: bool, st: System, n: nat, spread: set<nat>)
    requires Inv(isIndex, st) && Enabled(isIndex, st, NodeStep(n, spread))
    ensures var st' := Next(isIndex, st, NodeStep(n, spread)); st'.nodes.Keys == st.nodes.Keys && TablesOk(isIndex, st')
  {
    hide NodeOk, AfterPhase, Phases;
    var (c, st') := (st.command.value, Next(isIndex, st, NodeStep(n, spread)));
    if c.origin != n {
      NodeStepOthers(isIndex, st, n, spread, c.origin);
    }
  }

  lemma OriginStepCommand(isIndex: bool, st: System)
    requires Inv(isIndex, st) && Enabled(isIndex, st, OriginStep)
    ensures var st' := Next(isIndex, st, OriginStep); st'.nodes.Keys == st.nodes.Keys && TablesOk(isIndex, st')
  {
    hide NodeOk, Phase, Phases;
  }

  lemma NextPhaseCommand(isIndex: bool, st: System, reached: set<nat>)
    requires Inv(isIndex, st) && Enabled(isIndex, st, NextPhase(reached))
    ensures var st' := Next(isIndex, st, NextPhase(reached)); st'.nodes.Keys == st.nodes.Keys && TablesOk(isIndex, st')
  {
    hide NodeOk, Do, Phase;
  }

  lemma CommandKeeps(isIndex: bool, st: System, step: Step)
    requires Inv(isIndex, st) && Enabled(isIndex, st, step)
    ensures var st' := Next(isIndex, st, step);
            st'.nodes.Keys == st.nodes.Keys && TablesOk(isIndex, st')
  {
    hide NodeOk;
    match step
    case NodeStep(n, spread) => NodeStepCommand(isIndex, st, n, spread);
    case OriginStep => OriginStepCommand(isIndex, st);
    case NextPhase(reached) => NextPhaseCommand(isIndex, st, reached);
    case _ => hide Phase, AfterPhase, Do;
  }

  lemma StepInv(isIndex: bool, st: System, step: Step)
    requires Inv(isIndex, st) && Enabled(isIndex, st, step)
    ensures Inv(isIndex, Next(isIndex, st, step))
  {
    hide NodeOk, CommandOk, Next, Enabled;
    var st' := Next(isIndex, st, step);
    CommandKeeps(isIndex, st, step);
    forall m | m in st'.nodes ensures NodeOk(st', st'.nodes[m]) {
      match step
      case NodeStep(n, spread) =>
        if m == n {
          NodeStepSelf(isIndex, st, n, spread);
        } else {
          NodeStepKeeps(isIndex, st, n, spread, m);
        }
      case OriginStep => OriginStepKeeps(isIndex, st, m);
      case Begin(_, _, _) => PhaseStepKeeps(isIndex, st, step, m);
      case EndPhase => PhaseStepKeeps(isIndex, st, step, m);
      case NextPhase(_) => PhaseStepKeeps(isIndex, st, step, m);
      case Fail => FailureKeeps(isIndex, st, step, m);
      case Crash(_) => FailureKeeps(isIndex, st, step, m);
      case Settle => FailureKeeps(isIndex, st, step, m);
      case Restart(n) => StartKeeps(isIndex, st, n, m);
    }
  }

  lemma {:induction false} RunInv(isIndex: bool, nodes: set<nat>, steps: seq<Step>)
    requires Run(isIndex, nodes, steps).Some?
    ensures Inv(isIndex, Run(isIndex, nodes, steps).value)
    ensures Run(isIndex, nodes, steps).value.nodes.Keys == nodes
  {
    hide Enabled, Next;
    if steps != [] {
      var st := Run(isIndex, nodes, steps[..|steps| - 1]).value;
      RunInv(isIndex, nodes, steps[..|steps| - 1]);
      StepInv(isIndex, st, steps[|steps| - 1]);
      CommandKeeps(isIndex, st, steps[|steps| - 1]);
    }
  }

  // ---- Commands that come to their end ----------------------------------------------------------------

  /** The originating node has done all it does after the last phase. */
  predicate Completed(c: Command) {
    c.phase + 1 == Phases(c.kind) && c.after == Some(|AfterPhase(c.kind, c.phase)|)
  }

  /** A creation that comes to its end leaves the row persisted, and every node that took part in the last
      phase and is up has the object registered and out of to_delete. */
  lemma {:induction false} CreateCompletes(isIndex: bool, nodes: set<nat>, steps: seq<Step>, n: nat)
    requires Run(isIndex, nodes, steps).Some? && Run(isIndex, nodes, steps).value.command.Some?
    requires var c := Run(isIndex, nodes, steps).value.command.value; Creating(c) && Completed(c)
    requires n in nodes && n in Run(isIndex, nodes, steps).value.nodes
    requires Run(isIndex, nodes, steps).value.nodes[n].pos.Some?
    ensures var (st, node) := (Run(isIndex, nodes, steps).value, Run(isIndex, nodes, steps).value.nodes[n]);
            st.persisted && (node.up ==> node.registered) && !node.toDelete
  {
    RunInv(isIndex, nodes, steps);
    var st := Run(isIndex, nodes, steps).value;
    assert NodeOk(st, st.nodes[n]);
  }

  /** A drop that comes to its end leaves no row, and no data on any node that took part in the last phase. */
  lemma {:induction false} DropCompletes(isIndex: bool, nodes: set<nat>, steps: seq<Step>, n: nat)
    requires Run(isIndex, nodes, steps).Some? && Run(isIndex, nodes, steps).value.command.Some?
    requires var c := Run(isIndex, nodes, steps).value.command.value; !Creating(c) && Completed(c)
    requires n in nodes && n in Run(isIndex, nodes, steps).value.nodes
    requires Run(isIndex, nodes, steps).value.nodes[n].pos.Some?
    ensures !Run(isIndex, nodes, steps).value.persisted && !Run(isIndex, nodes, steps).value.nodes[n].data
  {
    RunInv(isIndex, nodes, steps);
    var st := Run(isIndex, nodes, steps).value;
    assert NodeOk(st, st.nodes[n]);
  }

  // ---- When data of a persisted object is lost --------------------------------------------------------

  /** What the node itself does in a step. */
  function Own(st: System, step: Step, n: nat): Option<Action> {
    if step.NodeStep? && step.node == n && st.command.Some? && n in st.nodes
       && !Answered(st.command.value, st.nodes[n])
    then Some(Current(st.command.value, st.nodes[n]))
    else if step.OriginStep? && st.command.Some? && st.command.value.origin == n && st.command.value.after.Some?
            && st.command.value.after.value < |AfterPhase(st.command.value.kind, st.command.value.phase)|
    then Some(AfterPhase(st.command.value.kind, st.command.value.phase)[st.command.value.after.value])
    else None
  }

  /** In this run the node has stored the prefixes and has since neither removed them nor been started. */
  predicate Marked(isIndex: bool, nodes: set<nat>, steps: seq<Step>, n: nat) {
    steps != [] &&
    var (before, step) := (Run(isIndex, nodes, steps[..|steps| - 1]), steps[|steps| - 1]);
    before.Some? &&
    var own := Own(before.value, step, n);
    own == Some(StoreToDelete)
      || (own != Some(RemoveToDelete) && step != Restart(n) && Marked(isIndex, nodes, steps[..|steps| - 1], n))
  }

  /** The object's row has been written in this run, and not been deleted since. */
  predicate Written(isIndex: bool, nodes: set<nat>, steps: seq<Step>) {
    steps != [] &&
    var (before, step) := (Run(isIndex, nodes, steps[..|steps| - 1]), steps[|steps| - 1]);
    before.Some? &&
    var own := if before.value.command.Some? then Own(before.value, step, before.value.command.value.origin) else None;
    own == Some(PersistRow) || (own != Some(DeleteRow) && Written(isIndex, nodes, steps[..|steps| - 1]))
  }

  lemma StepHistory(isIndex: bool, st: System, step: Step, n: nat)
    requires Inv(isIndex, st) && Enabled(isIndex, st, step) && n in st.nodes
    ensures var (st', own) := (Next(isIndex, st, step), Own(st, step, n));
            && n in st'.nodes
            && (st'.nodes[n].toDelete <==>
                  own == Some(StoreToDelete) || (own != Some(RemoveToDelete) && step != Restart(n)
                    && st.nodes[n].toDelete))
  {
    hide NodeOk, Phase, AfterPhase;
  }

  lemma StepTables(isIndex: bool, st: System, step: Step)
    requires Inv(isIndex, st) && Enabled(isIndex, st, step)
    ensures var own := if st.command.Some? then Own(st, step, st.command.value.origin) else None;
            Next(isIndex, st, step).persisted <==> own == Some(PersistRow) || (own != Some(DeleteRow) && st.persisted)
  {
    hide NodeOk;
    if step.NodeStep? {
      hide AfterPhase;
    }
  }

  /** The to_delete rows of a node and the row in the system tables, told from the run alone. */
  lemma {:induction false} HistoryTells(isIndex: bool, nodes: set<nat>, steps: seq<Step>, n: nat)
    requires Run(isIndex, nodes, steps).Some? && n in nodes
    ensures var st := Run(isIndex, nodes, steps).value;
            && n in st.nodes && (st.nodes[n].toDelete <==> Marked(isIndex, nodes, steps, n))
            && (st.persisted <==> Written(isIndex, nodes, steps))
  {
    hide Enabled, Next, Own;
    if steps != [] {
      var (before, step) := (Run(isIndex, nodes, steps[..|steps| - 1]).value, steps[|steps| - 1]);
      HistoryTells(isIndex, nodes, steps[..|steps| - 1], n);
      RunInv(isIndex, nodes, steps[..|steps| - 1]);
      StepHistory(isIndex, before, step, n);
      StepTables(isIndex, before, step);
    }
  }

  /** Data comes from a fill that reaches the node or from the node's own loading, and goes when the node deletes it or
      starts with the prefixes in to_delete and without the object in the tables table; no other step touches it. */
  lemma DataFollows(isIndex: bool, st: System, step: Step, n: nat)
    requires Enabled(isIndex, st, step) && n in st.nodes
    ensures var (st', own) := (Next(isIndex, st, step), Own(st, step, n));
            && n in st'.nodes
            && (st'.nodes[n].data <==>
                  || (own == Some(LoadInitialState) && n in step.spread)
                  || (step.NodeStep? && n in step.spread && Own(st, step, step.node) == Some(Fill))
                  || (st.nodes[n].data && own != Some(DeleteData)
                      && !(step == Restart(n) && st.nodes[n].toDelete && (isIndex || !st.persisted))))
  {
    if step.NodeStep? {
      hide AfterPhase;
    } else {
      hide Phase;
    }
  }

  lemma StepData(isIndex: bool, st: System, step: Step, n: nat)
    requires Inv(isIndex, st) && Enabled(isIndex, st, step) && n in st.nodes && st.nodes[n].data && st.persisted
    ensures var st' := Next(isIndex, st, step);
            n in st'.nodes && (!st'.nodes[n].data <==> isIndex && step == Restart(n) && st.nodes[n].toDelete)
  {
    hide NodeOk;
    if step.NodeStep? {
      hide AfterPhase;
      assert step.node == n ==> Current(st.command.value, st.nodes[n]) != DeleteData;
    } else {
      hide Phase;
    }
  }

  /** Data of a persisted object is lost in exactly one way: a node starts that has the prefixes of an index in
      to_delete, which is from its first phase until it removes them after the row has been written. */
  lemma {:induction false} PersistedDataLoss(isIndex: bool, nodes: set<nat>, steps: seq<Step>, step: Step, n: nat)
    requires Run(isIndex, nodes, steps).Some? && Enabled(isIndex, Run(isIndex, nodes, steps).value, step)
    requires n in Run(isIndex, nodes, steps).value.nodes && Run(isIndex, nodes, steps).value.nodes[n].data
    requires Written(isIndex, nodes, steps)
    ensures var st' := Next(isIndex, Run(isIndex, nodes, steps).value, step);
            && n in st'.nodes
            && (!st'.nodes[n].data <==> isIndex && step == Restart(n) && Marked(isIndex, nodes, steps, n))
  {
    RunInv(isIndex, nodes, steps);
    HistoryTells(isIndex, nodes, steps, n);
    StepData(isIndex, Run(isIndex, nodes, steps).value, step, n);
    hide Run, Marked, Written, Inv, Enabled, Next;
  }
}
