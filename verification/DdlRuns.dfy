/** Runs of phased DDL from its start, on two nodes: why each exception of the guarantees is needed, and that
    the steps they leave out do come up. */
module DdlRuns {
  import opened Bytes
  import opened PhasedDdl
  import opened DdlGuarantees
  import opened DdlFailures

  function Two(a: nat, na: Node, b: nat, nb: Node, persisted: bool, command: Option<Command>,
               dropper: Option<nat>): System
  {
    System(map[a := na, b := nb], persisted, command, true, dropper)
  }

  /** A run to this state in which no guarantee is spoilt. */
  predicate Clean(isIndex: bool, nodes: set<nat>, steps: seq<Step>, st: System) {
    && Run(isIndex, nodes, steps) == Some(st)
    && Avoids(isIndex, nodes, steps, SpoilsDrop) && Avoids(isIndex, nodes, steps, LosesMark)
  }

  lemma Take(isIndex: bool, nodes: set<nat>, steps: seq<Step>, st: System, step: Step, st': System)
    requires Clean(isIndex, nodes, steps, st)
    requires Enabled(isIndex, st, step) && !SpoilsDrop(st, step) && !LosesMark(st, step)
    requires Next(isIndex, st, step) == st'
    ensures Clean(isIndex, nodes, steps + [step], st')
  {
    hide Enabled, Next, SpoilsDrop, LosesMark;
    assert (steps + [step])[..|steps|] == steps;
  }

  /** What a node is like that has not been reached by anything. */
  const Idle: Node := Node(true, false, false, false, false, false, None)

  lemma Start(isIndex: bool, a: nat, b: nat)
    ensures Clean(isIndex, {a, b}, [], System(map[a := Idle, b := Idle], false, None, false, None))
  {
    assert Initial({a, b}).nodes == map[a := Idle, b := Idle];
  }

  // The steps of two nodes. The first one takes the step or is the originating node.

  lemma Swap(a: nat, na: Node, b: nat, nb: Node, p: bool, c: Option<Command>, d: Option<nat>)
    requires a != b
    ensures Two(a, na, b, nb, p, c, d) == Two(b, nb, a, na, p, c, d)
  {
    assert map[a := na, b := nb] == map[b := nb, a := na];
  }

  lemma IsTwo(m: map<nat, Node>, a: nat, na: Node, b: nat, nb: Node)
    requires a != b && m.Keys == {a, b} && m[a] == na && m[b] == nb
    ensures m == map[a := na, b := nb]
  {
  }

  function Called(node: Node, knows: bool, reached: bool): Node {
    node.(knows := knows, pos := if reached && knows then Some(0) else None)
  }

  lemma BeginTwo(isIndex: bool, steps: seq<Step>, a: nat, na: Node, b: nat, nb: Node, p: bool, began: bool,
                 d: Option<nat>, kind: Kind, both: bool)
    requires a != b && Clean(isIndex, {a, b}, steps, System(map[a := na, b := nb], p, None, began, d))
    requires na.up && (both ==> nb.up) && (kind == DropMV ==> !isIndex && na.registered && (nb.registered ==> both))
    requires kind != DropMV ==> !began && (isIndex <==> kind == CreateIndex)
    ensures Clean(isIndex, {a, b}, steps + [Begin(kind, a, if both then {a, b} else {a})],
              Two(a, Called(na, true, true), b, Called(nb, both, both), p, Some(Command(kind, a, 0, None, true)), d))
  {
    hide Clean, Phase, AfterPhase, Do, CanEnd, FillAhead;
    var (st, step) := (System(map[a := na, b := nb], p, None, began, d), Begin(kind, a, if both then {a, b} else {a}));
    var st' := Two(a, Called(na, true, true), b, Called(nb, both, both), p, Some(Command(kind, a, 0, None, true)), d);
    assert st.nodes[a] == na && st.nodes[b] == nb && st.nodes.Keys == {a, b};
    assert Enabled(isIndex, st, step) by { hide SpoilsDrop, LosesMark, Next; }
    assert Next(isIndex, st, step) == st' by {
      hide SpoilsDrop, LosesMark, Enabled;
      IsTwo(Next(isIndex, st, step).nodes, a, st'.nodes[a], b, st'.nodes[b]);
    }
    assert !SpoilsDrop(st, step) by { hide Enabled, Next, LosesMark; }
    hide Enabled, Next, SpoilsDrop;
    Take(isIndex, {a, b}, steps, st, step, st');
  }

  lemma NodeTwo(isIndex: bool, nodes: set<nat>, steps: seq<Step>, a: nat, na: Node, b: nat, nb: Node, p: bool,
                c: Command, d: Option<nat>, spread: set<nat>)
    requires a != b && Clean(isIndex, nodes, steps, Two(a, na, b, nb, p, Some(c), d)) && CanStep(c, na)
    ensures Clean(isIndex, nodes, steps + [NodeStep(a, spread)],
              Two(a, Do(na, Current(c, na), a in spread).(pos := Some(na.pos.value + 1)),
                  b, if Current(c, na) == Fill && b in spread then nb.(data := true) else nb, p, Some(c), d))
  {
    hide Clean, Phase, AfterPhase, Do, Phases, CanEnd, FillAhead;
    var (st, step) := (Two(a, na, b, nb, p, Some(c), d), NodeStep(a, spread));
    var st' := Two(a, Do(na, Current(c, na), a in spread).(pos := Some(na.pos.value + 1)),
                   b, if Current(c, na) == Fill && b in spread then nb.(data := true) else nb, p, Some(c), d);
    assert st.nodes[a] == na && st.nodes[b] == nb && st.nodes.Keys == {a, b};
    IsTwo(Next(isIndex, st, step).nodes, a, st'.nodes[a], b, st'.nodes[b]);
    Take(isIndex, nodes, steps, st, step, st');
  }

  lemma EndTwo(isIndex: bool, nodes: set<nat>, steps: seq<Step>, a: nat, na: Node, b: nat, nb: Node, p: bool,
               c: Command, d: Option<nat>)
    requires a != b && Clean(isIndex, nodes, steps, Two(a, na, b, nb, p, Some(c), d))
    requires c.alive && c.after.None? && Answered(c, na) && Answered(c, nb)
    ensures Clean(isIndex, nodes, steps + [EndPhase], Two(a, na, b, nb, p, Some(c.(after := Some(0))), d))
  {
    hide Clean, Phase, AfterPhase, Do, Phases;
    Take(isIndex, nodes, steps, Two(a, na, b, nb, p, Some(c), d), EndPhase,
         Two(a, na, b, nb, p, Some(c.(after := Some(0))), d));
  }

  lemma OriginTwo(isIndex: bool, nodes: set<nat>, steps: seq<Step>, a: nat, na: Node, b: nat, nb: Node, p: bool,
                  c: Command, d: Option<nat>)
    requires a != b && Clean(isIndex, nodes, steps, Two(a, na, b, nb, p, Some(c), d))
    requires c.alive && c.after.Some? && c.origin == a && c.after.value < |AfterPhase(c.kind, c.phase)|
    ensures var act := AfterPhase(c.kind, c.phase)[c.after.value];
            Clean(isIndex, nodes, steps + [OriginStep],
              Two(a, Do(na, act, false), b, nb, act == PersistRow || (act != DeleteRow && p),
                  Some(c.(after := Some(c.after.value + 1))), if act == DeleteRow then Some(a) else d))
  {
    hide Clean, Phase, Do, Phases, AfterPhase;
    var act := AfterPhase(c.kind, c.phase)[c.after.value];
    var st := Two(a, na, b, nb, p, Some(c), d);
    var st' := Two(a, Do(na, act, false), b, nb, act == PersistRow || (act != DeleteRow && p),
                   Some(c.(after := Some(c.after.value + 1))), if act == DeleteRow then Some(a) else d);
    assert Next(isIndex, st, OriginStep).nodes == st'.nodes;
    Take(isIndex, nodes, steps, st, OriginStep, st');
  }

  lemma NextTwo(isIndex: bool, nodes: set<nat>, steps: seq<Step>, a: nat, na: Node, b: nat, nb: Node, p: bool,
                c: Command, d: Option<nat>)
    requires a != b && Clean(isIndex, nodes, steps, Two(a, na, b, nb, p, Some(c), d)) && na.up && na.knows
    requires c.alive && c.origin == a && c.after == Some(|AfterPhase(c.kind, c.phase)|) && c.phase + 1 < Phases(c.kind)
    ensures Clean(isIndex, nodes, steps + [NextPhase({a})],
              Two(a, Called(na, true, true), b, Called(nb, nb.knows, false), p,
                  Some(c.(phase := c.phase + 1, after := None)), d))
  {
    var (st, step) := (Two(a, na, b, nb, p, Some(c), d), NextPhase({a}));
    var st' := Two(a, Called(na, true, true), b, Called(nb, nb.knows, false), p,
                   Some(c.(phase := c.phase + 1, after := None)), d);
    hide Clean, Phase, Do, Phases, AfterPhase, CanEnd, FillAhead;
    assert st.nodes[a] == na && st.nodes.Keys == {a, b};
    assert Enabled(isIndex, st, step);
    IsTwo(Next(isIndex, st, step).nodes, a, st'.nodes[a], b, st'.nodes[b]);
    Take(isIndex, nodes, steps, st, step, st');
  }

  lemma CrashTwo(isIndex: bool, nodes: set<nat>, steps: seq<Step>, a: nat, na: Node, b: nat, nb: Node, p: bool,
                 c: Option<Command>, began: bool, d: Option<nat>)
    requires a != b && Clean(isIndex, nodes, steps, System(map[a := na, b := nb], p, c, began, d)) && nb.up
    requires c.Some? ==> c.value.origin != b
    ensures Clean(isIndex, nodes, steps + [Crash(b)],
              System(map[a := na, b := nb.(up := false, registered := false, knows := false)], p, c, began, d))
  {
    hide Clean, Phase, Do, Phases, AfterPhase;
    var st := System(map[a := na, b := nb], p, c, began, d);
    var st' := System(map[a := na, b := nb.(up := false, registered := false, knows := false)], p, c, began, d);
    assert Next(isIndex, st, Crash(b)).nodes == st'.nodes;
    Take(isIndex, nodes, steps, st, Crash(b), st');
  }

  lemma RestartTwo(isIndex: bool, nodes: set<nat>, steps: seq<Step>, a: nat, na: Node, b: nat, nb: Node, p: bool,
                   c: Option<Command>, d: Option<nat>)
    requires a != b && Clean(isIndex, nodes, steps, Two(a, na, b, nb, p, c, d)) && !nb.up
    requires c.Some? ==> Creating(c.value) && p
    ensures Clean(isIndex, nodes, steps + [Restart(b)],
              Two(a, na, b, nb.(up := true, registered := p, toDelete := false,
                                data := nb.data && !(nb.toDelete && !(p && !isIndex))), p, c, d))
  {
    hide Clean, Phase, Do, Phases, AfterPhase, CanEnd;
    var st := Two(a, na, b, nb, p, c, d);
    var st' := Two(a, na, b, nb.(up := true, registered := p, toDelete := false,
                                 data := nb.data && !(nb.toDelete && !(p && !isIndex))), p, c, d);
    assert Next(isIndex, st, Restart(b)).nodes == st'.nodes;
    Take(isIndex, nodes, steps, st, Restart(b), st');
  }

  lemma CloseTwo(isIndex: bool, nodes: set<nat>, steps: seq<Step>, a: nat, na: Node, b: nat, nb: Node, p: bool,
                 c: Command, d: Option<nat>)
    requires a != b && Clean(isIndex, nodes, steps, Two(a, na, b, nb, p, Some(c), d))
    requires c.alive && c.after == Some(|AfterPhase(c.kind, c.phase)|) && 1 <= c.phase && c.phase + 1 == Phases(c.kind)
    ensures Clean(isIndex, nodes, steps + [NextPhase({})], Two(a, na, b, nb, p, None, d))
  {
    hide Clean, Phase, Do, Phases, AfterPhase, CanEnd, FillAhead;
    Take(isIndex, nodes, steps, Two(a, na, b, nb, p, Some(c), d), NextPhase({}), Two(a, na, b, nb, p, None, d));
  }

  // ---- Why each exception is needed -------------------------------------------------------------------

  /** Index data can reach a node before the node has stored the prefixes: another one is ahead in the same phase. */
  lemma {:induction false} IndexFillsEarly(a: nat, b: nat) returns (steps: seq<Step>, st: System)
    requires a != b
    ensures Clean(true, {a, b}, steps, st)
    ensures b in st.nodes && st.nodes[b].data && !st.persisted && !st.nodes[b].toDelete && !st.nodes[b].stored
  {
    hide Clean;
    Start(true, a, b);
    var c := Command(CreateIndex, a, 0, None, true);
    var (na, nb) := (Called(Idle, true, true), Called(Idle, true, true));
    BeginTwo(true, [], a, Idle, b, Idle, false, false, None, CreateIndex, true);
    steps := [] + [Begin(CreateIndex, a, {a, b})];
    NodeTwo(true, {a, b}, steps, a, na, b, nb, false, c, None, {});
    steps, na := steps + [NodeStep(a, {})], na.(toDelete := true, stored := true, pos := Some(1));
    NodeTwo(true, {a, b}, steps, a, na, b, nb, false, c, None, {b});
    steps, na, nb := steps + [NodeStep(a, {b})], na.(pos := Some(2)), nb.(data := true);
    return steps, Two(a, na, b, nb, false, Some(c), None);
  }

  /** The first two phases of the creation of a view by `a`, where the first one reaches `b` or does not, and the
      fill reaches both. */
  lemma FillView(a: nat, b: nat, steps0: seq<Step>, nb0: Node, both: bool)
    returns (steps: seq<Step>, na: Node, nb: Node)
    requires a != b && (both ==> nb0 == Idle)
    requires Clean(false, {a, b}, steps0, System(map[a := Idle, b := nb0], false, None, false, None))
    ensures Clean(false, {a, b}, steps, Two(a, na, b, nb, false, Some(Command(CreateMV, a, 1, None, true)), None))
    ensures na == Node(true, false, true, true, true, true, Some(1))
    ensures nb == if both then Node(true, false, true, true, true, true, None)
                  else nb0.(knows := false, pos := None, data := true)
  {
    hide Clean;
    var c := Command(CreateMV, a, 0, None, true);
    BeginTwo(false, steps0, a, Idle, b, nb0, false, false, None, CreateMV, both);
    steps := steps0 + [Begin(CreateMV, a, if both then {a, b} else {a})];
    na, nb := Called(Idle, true, true), Called(nb0, both, both);
    NodeTwo(false, {a, b}, steps, a, na, b, nb, false, c, None, {});
    steps, na := steps + [NodeStep(a, {})], na.(toDelete := true, stored := true, pos := Some(1));
    NodeTwo(false, {a, b}, steps, a, na, b, nb, false, c, None, {});
    steps, na := steps + [NodeStep(a, {})], na.(pos := Some(2));
    if both {
      steps, nb := StoreView(a, b, steps, na);
    }
    EndTwo(false, {a, b}, steps, a, na, b, nb, false, c, None);
    steps, c := steps + [EndPhase], c.(after := Some(0));
    NextTwo(false, {a, b}, steps, a, na, b, nb, false, c, None);
    steps, c := steps + [NextPhase({a})], c.(phase := 1, after := None);
    na, nb := Called(na, true, true), Called(nb, nb.knows, false);
    NodeTwo(false, {a, b}, steps, a, na, b, nb, false, c, None, {a, b});
    steps, na, nb := steps + [NodeStep(a, {a, b})], na.(data := true, pos := Some(1)), nb.(data := true);
  }

  /** The first phase of the creation of a view on the other node. */
  lemma StoreView(a: nat, b: nat, steps0: seq<Step>, na: Node) returns (steps: seq<Step>, nb: Node)
    requires a != b
    requires Clean(false, {a, b}, steps0,
               Two(a, na, b, Called(Idle, true, true), false, Some(Command(CreateMV, a, 0, None, true)), None))
    ensures Clean(false, {a, b}, steps, Two(a, na, b, nb, false, Some(Command(CreateMV, a, 0, None, true)), None))
    ensures nb == Node(true, false, true, false, true, true, Some(2))
  {
    hide Clean;
    var c := Command(CreateMV, a, 0, None, true);
    steps, nb := steps0, Called(Idle, true, true);
    Swap(a, na, b, nb, false, Some(c), None);
    NodeTwo(false, {a, b}, steps, b, nb, a, na, false, c, None, {});
    steps, nb := steps + [NodeStep(b, {})], nb.(toDelete := true, stored := true, pos := Some(1));
    NodeTwo(false, {a, b}, steps, b, nb, a, na, false, c, None, {});
    steps, nb := steps + [NodeStep(b, {})], nb.(pos := Some(2));
    Swap(a, na, b, nb, false, Some(c), None);
  }

  /** A node that is down when the creation of a view begins never stores the prefixes, and yet the fill reaches
      its replica. */
  lemma {:induction false} FillReachesMissedNode(a: nat, b: nat) returns (steps: seq<Step>, st: System)
    requires a != b
    ensures Clean(false, {a, b}, steps, st)
    ensures b in st.nodes && st.nodes[b].data && !st.persisted && !st.nodes[b].toDelete && !st.nodes[b].stored
  {
    hide Clean;
    Start(false, a, b);
    CrashTwo(false, {a, b}, [], a, Idle, b, Idle, false, None, false, None);
    var na, nb;
    steps, na, nb := FillView(a, b, [] + [Crash(b)], Idle.(up := false), false);
    st := Two(a, na, b, nb, false, Some(Command(CreateMV, a, 1, None, true)), None);
  }

  /** A view that has been created, with data on both nodes; `b` was down for a while. */
  lemma Created(a: nat, b: nat) returns (steps: seq<Step>, na: Node, nb: Node)
    requires a != b
    ensures Clean(false, {a, b}, steps, Two(a, na, b, nb, true, None, None))
    ensures na == Node(true, true, false, true, true, true, Some(2))
    ensures nb == Node(true, true, false, true, true, false, None)
  {
    hide Clean;
    Start(false, a, b);
    steps, na, nb := FillView(a, b, [], Idle, true);
    var c := Command(CreateMV, a, 1, None, true);
    EndTwo(false, {a, b}, steps, a, na, b, nb, false, c, None);
    steps, c := steps + [EndPhase], c.(after := Some(0));
    OriginTwo(false, {a, b}, steps, a, na, b, nb, false, c, None);
    steps, c := steps + [OriginStep], c.(after := Some(1));
    NextTwo(false, {a, b}, steps, a, na, b, nb, true, c, None);
    steps, c, na := steps + [NextPhase({a})], c.(phase := 2, after := None), Called(na, true, true);
    steps, na := RegisterView(a, b, steps, na, nb);
    CrashTwo(false, {a, b}, steps, a, na, b, nb, true, None, true, None);
    steps, nb := steps + [Crash(b)], nb.(up := false, knows := false);
    RestartTwo(false, {a, b}, steps, a, na, b, nb, true, None, None);
    steps, nb := steps + [Restart(b)], nb.(up := true, registered := true, toDelete := false);
  }

  /** The last phase of the creation of a view on its originating node. */
  lemma RegisterView(a: nat, b: nat, steps0: seq<Step>, na0: Node, nb: Node) returns (steps: seq<Step>, na: Node)
    requires a != b && na0.up && na0.knows && na0.pos == Some(0) && nb.pos.None?
    requires Clean(false, {a, b}, steps0, Two(a, na0, b, nb, true, Some(Command(CreateMV, a, 2, None, true)), None))
    ensures Clean(false, {a, b}, steps, Two(a, na, b, nb, true, None, None))
    ensures na == na0.(registered := true, toDelete := false, pos := Some(2))
  {
    hide Clean;
    var c := Command(CreateMV, a, 2, None, true);
    NodeTwo(false, {a, b}, steps0, a, na0, b, nb, true, c, None, {});
    steps, na := steps0 + [NodeStep(a, {})], na0.(registered := true, pos := Some(1));
    NodeTwo(false, {a, b}, steps, a, na, b, nb, true, c, None, {});
    steps, na := steps + [NodeStep(a, {})], na.(toDelete := false, pos := Some(2));
    EndTwo(false, {a, b}, steps, a, na, b, nb, true, c, None);
    steps, c := steps + [EndPhase], c.(after := Some(0));
    CloseTwo(false, {a, b}, steps, a, na, b, nb, true, c, None);
    steps := steps + [NextPhase({})];
  }

  /** The deletion of the row leaves data on the nodes that do not drop the view unmarked. */
  lemma {:induction false} DropUncovers(a: nat, b: nat) returns (steps: seq<Step>, st: System)
    requires a != b
    ensures Clean(false, {a, b}, steps, st) && Enabled(false, st, NextPhase({b})) && LosesMark(st, NextPhase({b}))
    ensures b in st.nodes && st.nodes[b].data && !st.persisted && !st.nodes[b].toDelete && st.nodes[b].stored
    ensures st.dropper == Some(a)
  {
    hide Clean;
    var na, nb;
    steps, na, nb := Created(a, b);
    BeginTwo(false, steps, a, na, b, nb, true, true, None, DropMV, true);
    steps, na, nb := steps + [Begin(DropMV, a, {a, b})], Called(na, true, true), Called(nb, true, true);
    var c := Command(DropMV, a, 0, None, true);
    NodeTwo(false, {a, b}, steps, a, na, b, nb, true, c, None, {});
    steps, na := steps + [NodeStep(a, {})], na.(registered := false, pos := Some(1));
    Swap(a, na, b, nb, true, Some(c), None);
    NodeTwo(false, {a, b}, steps, b, nb, a, na, true, c, None, {});
    steps, nb := steps + [NodeStep(b, {})], nb.(registered := false, pos := Some(1));
    Swap(a, na, b, nb, true, Some(c), None);
    EndTwo(false, {a, b}, steps, a, na, b, nb, true, c, None);
    steps, c := steps + [EndPhase], c.(after := Some(0));
    OriginTwo(false, {a, b}, steps, a, na, b, nb, true, c, None);
    steps, c, na := steps + [OriginStep], c.(after := Some(1)), na.(toDelete := true, stored := true);
    OriginTwo(false, {a, b}, steps, a, na, b, nb, true, c, None);
    steps, c := steps + [OriginStep], c.(after := Some(2));
    st := Two(a, na, b, nb, false, Some(c), Some(a));
  }

  // ---- The steps that the guarantees leave out come up ------------------------------------------------

  /** The second phase of a drop misses the dropping node, which then keeps data that nothing marks. */
  lemma {:induction false} DropMissesItself(a: nat, b: nat) returns (steps: seq<Step>, n: nat)
    requires a != b
    ensures Run(false, {a, b}, steps).Some?
    ensures var st := Run(false, {a, b}, steps).value;
            n in st.nodes && !Covered(st.persisted, st.dropper, n, st.nodes[n])
  {
    var before, st := DropUncovers(a, b);
    var more;
    hide Run, Enabled, LosesMark;
    more, n := LostMark(false, {a, b}, before, NextPhase({b}));
    steps := before + [NextPhase({b})] + more;
  }

  /** A node comes back before a drop has deleted the row, and has the view registered when the row is gone. */
  lemma {:induction false} RejoinBreaksDrop(a: nat, b: nat) returns (steps: seq<Step>, n: nat)
    requires a != b
    ensures Run(false, {a, b}, steps).Some?
    ensures var st := Run(false, {a, b}, steps).value; n in st.nodes && st.nodes[n].registered && !st.persisted
  {
    var before, na, nb := Created(a, b);
    CrashTwo(false, {a, b}, before, a, na, b, nb, true, None, true, None);
    before, nb := before + [Crash(b)], nb.(up := false, registered := false);
    BeginTwo(false, before, a, na, b, nb, true, true, None, DropMV, false);
    before, na, nb := before + [Begin(DropMV, a, {a})], Called(na, true, true), Called(nb, false, false);
    var st := Two(a, na, b, nb, true, Some(Command(DropMV, a, 0, None, true)), None);
    assert Enabled(false, st, Restart(b)) && SpoilsDrop(st, Restart(b));
    var more;
    hide Run, Enabled, SpoilsDrop;
    more, n := SpoiltDrop(false, {a, b}, before, Restart(b));
    steps := before + [Restart(b)] + more;
  }

  /** A drop misses a node that is up, which then has the view registered when the row is gone. */
  lemma {:induction false} MissedNodeKeepsView(a: nat, b: nat) returns (steps: seq<Step>, n: nat)
    requires a != b
    ensures Run(false, {a, b}, steps).Some?
    ensures var st := Run(false, {a, b}, steps).value; n in st.nodes && st.nodes[n].registered && !st.persisted
  {
    var before, na, nb := Created(a, b);
    var (st, step) := (Two(a, na, b, nb, true, None, None), Begin(DropMV, a, {a}));
    assert st.nodes[b].registered;
    assert Enabled(false, st, step) && SpoilsDrop(st, step);
    var more;
    hide Run, Enabled, SpoilsDrop;
    more, n := SpoiltDrop(false, {a, b}, before, step);
    steps := before + [step] + more;
  }

  /** A node comes back during the creation of a view and loses its mark, and the fill then reaches it. */
  lemma {:induction false} RejoinLosesMark(a: nat, b: nat) returns (steps: seq<Step>, n: nat)
    requires a != b
    ensures Run(false, {a, b}, steps).Some?
    ensures var st := Run(false, {a, b}, steps).value;
            n in st.nodes && !Covered(st.persisted, st.dropper, n, st.nodes[n])
  {
    Start(false, a, b);
    BeginTwo(false, [], a, Idle, b, Idle, false, false, None, CreateMV, true);
    var na := Called(Idle, true, true);
    var before, nb := StoreView(a, b, [] + [Begin(CreateMV, a, {a, b})], na);
    var c := Command(CreateMV, a, 0, None, true);
    CrashTwo(false, {a, b}, before, a, na, b, nb, false, Some(c), true, None);
    before, nb := before + [Crash(b)], nb.(up := false, registered := false, knows := false);
    var st := Two(a, na, b, nb, false, Some(c), None);
    assert CanEnd(st);
    assert Enabled(false, st, Restart(b)) && LosesMark(st, Restart(b));
    var more;
    hide Run, Enabled, LosesMark;
    more, n := LostMark(false, {a, b}, before, Restart(b));
    steps := before + [Restart(b)] + more;
  }

  /** A node starts after an index has been persisted and before it has removed the prefixes: data of a persisted
      and registered index is gone. */
  lemma {:induction false} IndexDataLost(a: nat, b: nat) returns (steps: seq<Step>, st: System)
    requires a != b
    ensures Clean(true, {a, b}, steps + [Crash(b)] + [Restart(b)], st)
    ensures var before := Run(true, {a, b}, steps);
            && before.Some? && before.value.persisted && b in before.value.nodes && before.value.nodes[b].data
    ensures b in st.nodes && st.persisted && st.nodes[b].registered && !st.nodes[b].data
  {
    Start(true, a, b);
    BeginTwo(true, [], a, Idle, b, Idle, false, false, None, CreateIndex, true);
    var na, nb;
    steps, na, nb := FillIndex(a, b, [] + [Begin(CreateIndex, a, {a, b})]);
    var c := Command(CreateIndex, a, 0, Some(1), true);
    assert Run(true, {a, b}, steps) == Some(Two(a, na, b, nb, true, Some(c), None));
    hide Run, Clean;
    CrashTwo(true, {a, b}, steps, a, na, b, nb, true, Some(c), true, None);
    nb := nb.(up := false, registered := false, knows := false);
    RestartTwo(true, {a, b}, steps + [Crash(b)], a, na, b, nb, true, Some(c), None);
    st := Two(a, na, b, nb.(up := true, registered := true, toDelete := false, data := false), true, Some(c), None);
  }

  /** The first phase of the creation of an index on both nodes, up to its row. */
  lemma FillIndex(a: nat, b: nat, steps0: seq<Step>) returns (steps: seq<Step>, na: Node, nb: Node)
    requires a != b
    requires Clean(true, {a, b}, steps0, Two(a, Called(Idle, true, true), b, Called(Idle, true, true), false,
                                             Some(Command(CreateIndex, a, 0, None, true)), None))
    ensures Clean(true, {a, b}, steps, Two(a, na, b, nb, true, Some(Command(CreateIndex, a, 0, Some(1), true)), None))
    ensures na == nb == Node(true, false, true, true, true, true, Some(2))
  {
    hide Clean;
    var c := Command(CreateIndex, a, 0, None, true);
    steps, na, nb := steps0, Called(Idle, true, true), Called(Idle, true, true);
    NodeTwo(true, {a, b}, steps, a, na, b, nb, false, c, None, {});
    steps, na := steps + [NodeStep(a, {})], na.(toDelete := true, stored := true, pos := Some(1));
    Swap(a, na, b, nb, false, Some(c), None);
    NodeTwo(true, {a, b}, steps, b, nb, a, na, false, c, None, {});
    steps, nb := steps + [NodeStep(b, {})], nb.(toDelete := true, stored := true, pos := Some(1));
    NodeTwo(true, {a, b}, steps, b, nb, a, na, false, c, None, {a, b});
    steps, na, nb := steps + [NodeStep(b, {a, b})], na.(data := true), nb.(data := true, pos := Some(2));
    Swap(a, na, b, nb, false, Some(c), None);
    NodeTwo(true, {a, b}, steps, a, na, b, nb, false, c, None, {});
    steps, na := steps + [NodeStep(a, {})], na.(pos := Some(2));
    EndTwo(true, {a, b}, steps, a, na, b, nb, false, c, None);
    steps, c := steps + [EndPhase], c.(after := Some(0));
    OriginTwo(true, {a, b}, steps, a, na, b, nb, false, c, None);
    steps := steps + [OriginStep];
  }
}
