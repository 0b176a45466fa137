/** What forwarding guarantees in every run, without the conditions exactly-once needs, and what is
    lost when those conditions fail. */
module ForwardingLimits {
  import opened Bytes
  import opened Forwarding

  /** A forward stands for a row its originator really stored and really owes the destination. */
  ghost predicate Genuine(cfg: Config, st: System, d: nat, f: Forward) {
    && f.origin.shard in st.shards
    && var log := st.shards[f.origin.shard].log;
       && 0 < f.sequence <= |log|
       && RoutesTo(cfg, log[f.sequence - 1], f.origin.table, d)
       && f == ForwardOf(cfg, f.origin.shard, f.origin.table, f.sequence, log[f.sequence - 1])
  }

  ghost predicate AllGenuine(cfg: Config, st: System, d: nat, fs: seq<Forward>) {
    forall i :: 0 <= i < |fs| ==> Genuine(cfg, st, d, fs[i])
  }

  predicate StrictlyAscending(fs: seq<Forward>) {
    forall i, j :: 0 <= i < j < |fs| ==> fs[i].sequence < fs[j].sequence
  }

  /** What a shard has accepted from one originator: genuine rows in strictly ascending order. */
  ghost predicate Clean(cfg: Config, st: System, d: nat, o: Originator, fs: seq<Forward>) {
    StrictlyAscending(fs) && AllGenuine(cfg, st, d, fs) && forall i :: 0 <= i < |fs| ==> fs[i].origin == o
  }

  predicate InTable(sh: Shard) {
    (forall i :: i in sh.pending ==> 0 < i <= |sh.log|) && Stored(sh.log, sh.queue)
  }

  ghost predicate Sound(cfg: Config, st: System) {
    && st.shards.Keys == cfg.shards
    && (forall d :: d in st.shards ==> InTable(st.shards[d]) && DedupMatches(st.shards[d]))
    && (forall d, o :: d in st.shards ==> Clean(cfg, st, d, o, AcceptedFrom(st.shards[d], o)))
    && (forall m :: m in st.sent ==> m.dest in st.shards && AllGenuine(cfg, st, m.dest, m.forwards))
  }

  /** Logs only grow, so what is genuine stays genuine. */
  lemma GenuineGrows(cfg: Config, st: System, st': System, d: nat, fs: seq<Forward>)
    requires AllGenuine(cfg, st, d, fs)
    requires st'.shards.Keys == st.shards.Keys && forall s :: s in st.shards ==> st.shards[s].log <= st'.shards[s].log
    ensures AllGenuine(cfg, st', d, fs)
  {
    forall i | 0 <= i < |fs| ensures Genuine(cfg, st', d, fs[i]) {
      assert Genuine(cfg, st, d, fs[i]);
    }
  }

  lemma {:induction false} BlockGenuine(cfg: Config, st: System, s: nat, rows: seq<nat>, edge: (nat, nat), d: nat)
    requires s in st.shards && Stored(st.shards[s].log, rows)
    ensures AllGenuine(cfg, st, d, Block(cfg, s, st.shards[s].log, rows, edge, d))
  {
    if rows != [] {
      BlockGenuine(cfg, st, s, rows[..|rows| - 1], edge, d);
    }
  }

  lemma {:induction false} BlocksGenuine(cfg: Config, st: System, s: nat, rows: seq<nat>, blocks: seq<(nat, nat)>,
                                         d: nat)
    requires s in st.shards && Stored(st.shards[s].log, rows)
    ensures AllGenuine(cfg, st, d, Blocks(cfg, s, st.shards[s].log, rows, blocks, d))
  {
    hide Genuine;
    if blocks != [] {
      BlocksGenuine(cfg, st, s, rows, blocks[..|blocks| - 1], d);
      BlockGenuine(cfg, st, s, rows, blocks[|blocks| - 1], d);
    }
  }

  lemma {:induction false} ReceiveAllSound(cfg: Config, st: System, sh: Shard, fs: seq<Forward>, d: nat)
    requires AllGenuine(cfg, st, d, fs) && InTable(sh) && DedupMatches(sh)
    requires forall o :: Clean(cfg, st, d, o, AcceptedFrom(sh, o))
    ensures var sh' := ReceiveAll(sh, fs);
            && sh.log <= sh'.log && InTable(sh') && DedupMatches(sh')
            && forall o :: Clean(cfg, st, d, o, AcceptedFrom(sh', o))
  {
    hide Clean, InTable, DedupMatches, Genuine;
    if fs != [] {
      var n := |fs| - 1;
      ReceiveAllSound(cfg, st, sh, fs[..n], d);
      ReceiveSound(cfg, st, ReceiveAll(sh, fs[..n]), fs[n], d);
    }
  }

  lemma CleanSnoc(cfg: Config, st: System, d: nat, fs: seq<Forward>, f: Forward)
    requires Clean(cfg, st, d, f.origin, fs) && Genuine(cfg, st, d, f) && f.sequence > HighestOf(0, fs)
    ensures Clean(cfg, st, d, f.origin, fs + [f])
  {
    hide Genuine;
  }

  lemma ReceiveSound(cfg: Config, st: System, sh: Shard, f: Forward, d: nat)
    requires Genuine(cfg, st, d, f) && InTable(sh) && DedupMatches(sh)
    requires forall o :: Clean(cfg, st, d, o, AcceptedFrom(sh, o))
    ensures var sh' := Receive(sh, f);
            && sh.log <= sh'.log && InTable(sh') && DedupMatches(sh')
            && forall o :: Clean(cfg, st, d, o, AcceptedFrom(sh', o))
  {
    hide Clean, DedupMatches, AcceptedFrom;
    ReceiveKeepsDedup(sh, f);
    forall o ensures Clean(cfg, st, d, o, AcceptedFrom(Receive(sh, f), o)) {
      CleanReceive(cfg, st, sh, f, d, o);
    }
  }

  lemma CleanReceive(cfg: Config, st: System, sh: Shard, f: Forward, d: nat, o: Originator)
    requires Genuine(cfg, st, d, f) && DedupMatches(sh) && Clean(cfg, st, d, o, AcceptedFrom(sh, o))
    ensures Clean(cfg, st, d, o, AcceptedFrom(Receive(sh, f), o))
  {
    hide Clean, Receive, AcceptedFrom;
    ReceiveAccepts(sh, f, o);
    LastIsHighest(sh, o);
    if f.origin == o && f.sequence > LastSequence(sh, o) {
      CleanSnoc(cfg, st, d, AcceptedFrom(sh, o), f);
    } else {
      assert AcceptedFrom(sh, o) + [] == AcceptedFrom(sh, o);
    }
  }

  lemma SuffixStored(log: seq<Row>, rows: seq<nat>, k: nat)
    requires Stored(log, rows) && k <= |rows|
    ensures Stored(log, rows[k..])
  {
  }

  /** Whatever has happened, the rows of the next batch are rows of the receiver table. */
  lemma NextRowsStored(sh: Shard, n: nat)
    requires InTable(sh) && (sh.first || n <= |sh.queue|)
    ensures Stored(sh.log, NextRows(sh, n))
  {
    if !sh.first {
      SuffixStored(sh.log, sh.queue[..n], |sh.queue[..n]| - |DropProcessed(sh.queue[..n], sh.lastProcessed)|);
    }
  }

  lemma CleanGrows(cfg: Config, st: System, st': System, d: nat, o: Originator, fs: seq<Forward>)
    requires Clean(cfg, st, d, o, fs)
    requires st'.shards.Keys == st.shards.Keys && forall s :: s in st.shards ==> st.shards[s].log <= st'.shards[s].log
    ensures Clean(cfg, st', d, o, fs)
  {
    GenuineGrows(cfg, st, st', d, fs);
  }

  /** A step that changes one shard, accepting nothing, or accepting only what is genuine. */
  lemma SoundUpdate(cfg: Config, st: System, x: nat, sh: Shard, ms: set<Message>)
    requires Sound(cfg, st) && x in st.shards
    requires st.shards[x].log <= sh.log && InTable(sh) && DedupMatches(sh)
    requires forall o :: Clean(cfg, st, x, o, AcceptedFrom(sh, o))
    requires forall m :: m in ms ==> m.dest in st.shards && AllGenuine(cfg, st, m.dest, m.forwards)
    ensures Sound(cfg, Update(st, x, sh).(sent := st.sent + ms))
  {
    hide Clean, Genuine, AllGenuine, InTable, DedupMatches;
    var st' := Update(st, x, sh).(sent := st.sent + ms);
    forall d, o | d in st'.shards ensures Clean(cfg, st', d, o, AcceptedFrom(st'.shards[d], o)) {
      CleanGrows(cfg, st, st', d, o, AcceptedFrom(st'.shards[d], o));
    }
    forall m | m in st'.sent ensures m.dest in st'.shards && AllGenuine(cfg, st', m.dest, m.forwards) {
      GenuineGrows(cfg, st, st', m.dest, m.forwards);
    }
  }

  /** Steps that accept nothing. */
  lemma QuietSound(cfg: Config, st: System, x: nat, sh: Shard, ms: set<Message>)
    requires Sound(cfg, st) && x in st.shards
    requires st.shards[x].log <= sh.log && InTable(sh)
    requires sh.dedup == st.shards[x].dedup && sh.accepted == st.shards[x].accepted
    requires forall m :: m in ms ==> m.dest in st.shards && AllGenuine(cfg, st, m.dest, m.forwards)
    ensures Sound(cfg, Update(st, x, sh).(sent := st.sent + ms))
  {
    hide Clean, Genuine, AllGenuine, InTable;
    assert forall o :: AcceptedFrom(sh, o) == AcceptedFrom(st.shards[x], o);
    SoundUpdate(cfg, st, x, sh, ms);
  }

  lemma BeginSound(cfg: Config, st: System, s: nat, n: nat, blocks: seq<(nat, nat)>, known: set<nat>)
    requires Sound(cfg, st) && s in st.shards && CanBegin(st.shards[s], n)
    ensures Sound(cfg, DoBegin(cfg, st, s, n, blocks, known))
  {
    hide Clean, Genuine, AllGenuine, DedupMatches, Blocks, NextRows;
    var sh := st.shards[s];
    var rows := NextRows(sh, n);
    var ms := if rows == [] || HasUnknown(sh, rows, known) then {} else Messages(cfg, s, sh.log, rows, blocks);
    forall m | m in ms ensures m.dest in st.shards && AllGenuine(cfg, st, m.dest, m.forwards) {
      BlocksGenuine(cfg, st, s, rows, blocks, m.dest);
    }
    var st' := DoBegin(cfg, st, s, n, blocks, known);
    QuietSound(cfg, st, s, st'.shards[s], ms);
    assert st' == Update(st, s, st'.shards[s]).(sent := st.sent + ms);
  }

  lemma DeliverSound(cfg: Config, st: System, m: Message)
    requires Sound(cfg, st) && m in st.sent
    ensures m.dest in st.shards && Sound(cfg, DoDeliver(st, m))
  {
    hide Clean, Genuine, AllGenuine, InTable, DedupMatches, ReceiveAll;
    var sh := ReceiveAll(st.shards[m.dest], m.forwards);
    ReceiveAllSound(cfg, st, st.shards[m.dest], m.forwards, m.dest);
    SoundUpdate(cfg, st, m.dest, sh, {});
    SoundFrame(cfg, Update(st, m.dest, sh).(sent := st.sent + {}), DoDeliver(st, m));
  }

  /** Soundness does not depend on what has been acknowledged. */
  lemma SoundFrame(cfg: Config, st: System, st': System)
    requires Sound(cfg, st) && st'.shards == st.shards && st'.sent == st.sent
    ensures Sound(cfg, st')
  {
    hide InTable, DedupMatches;
    forall d, o | d in st'.shards ensures Clean(cfg, st', d, o, AcceptedFrom(st'.shards[d], o)) {
      CleanGrows(cfg, st, st', d, o, AcceptedFrom(st'.shards[d], o));
    }
    forall m | m in st'.sent ensures m.dest in st'.shards && AllGenuine(cfg, st', m.dest, m.forwards) {
      GenuineGrows(cfg, st, st', m.dest, m.forwards);
    }
  }

  lemma StepSound(cfg: Config, st: System, step: Step)
    requires Sound(cfg, st) && Enabled(cfg, st, step)
    ensures Sound(cfg, Next(cfg, st, step))
  {
    hide Sound, Clean, Genuine, AllGenuine, DedupMatches, CanBegin, DoBegin, DoDeliver;
    match step
    case Begin(s, n, blocks, known) => BeginSound(cfg, st, s, n, blocks, known);
    case Deliver(m) => DeliverSound(cfg, st, m);
    case Produce(_, _) => OtherSound(cfg, st, step);
    case Commit(_) => OtherSound(cfg, st, step);
    case Fail(_) => OtherSound(cfg, st, step);
    case Restart(_) => OtherSound(cfg, st, step);
  }

  lemma OtherSound(cfg: Config, st: System, step: Step)
    requires Sound(cfg, st) && Enabled(cfg, st, step) && !step.Begin? && !step.Deliver?
    ensures Sound(cfg, Next(cfg, st, step))
  {
    hide Clean, Genuine, AllGenuine, DedupMatches;
    var st' := Next(cfg, st, step);
    QuietSound(cfg, st, step.shard, st'.shards[step.shard], {});
    assert st' == Update(st, step.shard, st'.shards[step.shard]).(sent := st.sent + {});
  }

  lemma InitialSound(cfg: Config)
    ensures Sound(cfg, Initial(cfg))
  {
  }

  /** Every run at all, with unknown consumers and however tables are fed: nothing is ever accepted
      twice, out of order, or that its originator does not owe. */
  lemma {:induction false} AtMostOnce(cfg: Config, steps: seq<Step>)
    requires Run(cfg, steps).Some?
    ensures Sound(cfg, Run(cfg, steps).value)
  {
    hide Sound;
    if steps == [] {
      InitialSound(cfg);
    } else {
      var front := steps[..|steps| - 1];
      AtMostOnce(cfg, front);
      StepSound(cfg, Run(cfg, front).value, steps[|steps| - 1]);
    }
  }

  // ---- What is accepted and stored, in terms of the configuration --------------------------------------

  /** In every run, what a shard has accepted stands for a row its originator stored, fed to that aggregation table
      and routed to this shard, and it carries the row that the routing gives. */
  lemma {:induction false} AcceptedIsRouted(cfg: Config, steps: seq<Step>, s: nat, t: nat, d: nat, f: Forward)
    requires Run(cfg, steps).Some? && d in Run(cfg, steps).value.shards
    requires f in AcceptedFrom(Run(cfg, steps).value.shards[d], Originator(t, s))
    ensures s in Run(cfg, steps).value.shards && f.origin == Originator(t, s)
    ensures var log := Run(cfg, steps).value.shards[s].log;
            && 0 < f.sequence <= |log|
            && (log[f.sequence - 1].consumer, t) in cfg.edges
            && cfg.route(t, log[f.sequence - 1]) == Some((d, f.row))
  {
    AtMostOnce(cfg, steps);
    hide Run;
    var st := Run(cfg, steps).value;
    var o := Originator(t, s);
    assert Clean(cfg, st, d, o, AcceptedFrom(st.shards[d], o));
    var i :| 0 <= i < |AcceptedFrom(st.shards[d], o)| && AcceptedFrom(st.shards[d], o)[i] == f;
    assert Genuine(cfg, st, d, f);
  }

  /** The rows that were produced on a shard, in order. */
  function Produced(steps: seq<Step>, d: nat): seq<Row> {
    if steps == [] then [] else Produced(steps[..|steps| - 1], d) + MadeBy(steps[|steps| - 1], d)
  }

  function MadeBy(step: Step, d: nat): seq<Row> {
    if step.Produce? && step.shard == d then [step.row] else []
  }

  /** How often a row has been accepted from any originator, counting over a set of them. */
  ghost function TimesAccepted(sh: Shard, os: set<Originator>, row: Row): nat {
    if os == {} then 0
    else
      var o :| o in os;
      Occurrences(AcceptedFrom(sh, o), row) + TimesAccepted(sh, os - {o}, row)
  }

  function Occurrences(fs: seq<Forward>, row: Row): nat {
    if fs == [] then 0 else Occurrences(fs[..|fs| - 1], row) + if fs[|fs| - 1].row == row then 1 else 0
  }

  lemma {:induction false} TakeOut(sh: Shard, os: set<Originator>, row: Row, o: Originator)
    requires o in os
    ensures TimesAccepted(sh, os, row) == Occurrences(AcceptedFrom(sh, o), row) + TimesAccepted(sh, os - {o}, row)
  {
    hide Occurrences, AcceptedFrom;
    var x := Chosen(sh, os, row);
    if x != o {
      TakeOut(sh, os - {x}, row, o);
      TakeOut(sh, os - {o}, row, x);
      assert os - {x} - {o} == os - {o} - {x};
    }
  }

  lemma Chosen(sh: Shard, os: set<Originator>, row: Row) returns (o: Originator)
    requires os != {}
    ensures o in os
    ensures TimesAccepted(sh, os, row) == Occurrences(AcceptedFrom(sh, o), row) + TimesAccepted(sh, os - {o}, row)
  {
    o :| o in os && TimesAccepted(sh, os, row)
                    == Occurrences(AcceptedFrom(sh, o), row) + TimesAccepted(sh, os - {o}, row);
  }

  lemma {:induction false} SameTimes(sh: Shard, sh': Shard, os: set<Originator>, row: Row)
    requires forall o :: o in os ==> AcceptedFrom(sh', o) == AcceptedFrom(sh, o)
    ensures TimesAccepted(sh', os, row) == TimesAccepted(sh, os, row)
  {
    hide Occurrences, AcceptedFrom;
    if os != {} {
      var o := Chosen(sh, os, row);
      TakeOut(sh', os, row, o);
      SameTimes(sh, sh', os - {o}, row);
    }
  }

  /** Every row of the receiver table was produced there or accepted, counting repetitions. */
  ghost predicate Balanced(sh: Shard, made: seq<Row>) {
    forall row :: multiset(sh.log)[row] == multiset(made)[row] + TimesAccepted(sh, sh.accepted.Keys, row)
  }

  lemma ReceiveTimes(sh: Shard, f: Forward, row: Row)
    requires !IsDuplicate(sh.dedup, f)
    ensures TimesAccepted(Receive(sh, f), Receive(sh, f).accepted.Keys, row)
         == TimesAccepted(sh, sh.accepted.Keys, row) + if f.row == row then 1 else 0
  {
    var (sh', o) := (Receive(sh, f), f.origin);
    var rest := sh'.accepted.Keys - {o};
    var (before, after) := (AcceptedFrom(sh, o), AcceptedFrom(sh', o));
    assert after == before + [f];
    assert (before + [f])[..|before|] == before;
    assert Occurrences(after, row) == Occurrences(before, row) + if f.row == row then 1 else 0;
    TakeOut(sh', sh'.accepted.Keys, row, o);
    forall x | x in rest ensures AcceptedFrom(sh', x) == AcceptedFrom(sh, x) {
    }
    SameTimes(sh, sh', rest, row);
    if o in sh.accepted {
      TakeOut(sh, sh.accepted.Keys, row, o);
      assert sh.accepted.Keys - {o} == rest;
    } else {
      assert sh.accepted.Keys == rest;
    }
  }

  lemma ReceiveBalanced(sh: Shard, f: Forward, made: seq<Row>)
    requires Balanced(sh, made)
    ensures Balanced(Receive(sh, f), made)
  {
    hide TimesAccepted;
    if !IsDuplicate(sh.dedup, f) {
      forall row
        ensures multiset(Receive(sh, f).log)[row]
             == multiset(made)[row] + TimesAccepted(Receive(sh, f), Receive(sh, f).accepted.Keys, row)
      {
        ReceiveTimes(sh, f, row);
      }
    }
  }

  lemma {:induction false} ReceiveAllBalanced(sh: Shard, fs: seq<Forward>, made: seq<Row>)
    requires Balanced(sh, made)
    ensures Balanced(ReceiveAll(sh, fs), made)
  {
    hide Balanced, Receive;
    if fs != [] {
      ReceiveAllBalanced(sh, fs[..|fs| - 1], made);
      ReceiveBalanced(ReceiveAll(sh, fs[..|fs| - 1]), fs[|fs| - 1], made);
    }
  }

  /** Steps that store nothing, and the one that stores a produced row. */
  lemma SameBalanced(sh: Shard, sh': Shard, made: seq<Row>)
    requires Balanced(sh, made) && sh'.log == sh.log && sh'.accepted == sh.accepted
    ensures Balanced(sh', made)
  {
    forall row ensures TimesAccepted(sh', sh'.accepted.Keys, row) == TimesAccepted(sh, sh.accepted.Keys, row) {
      SameTimes(sh, sh', sh.accepted.Keys, row);
    }
  }

  lemma ProduceBalanced(sh: Shard, row: Row, made: seq<Row>)
    requires Balanced(sh, made)
    ensures Balanced(Append(sh, row), made + [row])
  {
    hide TimesAccepted;
    var sh' := Append(sh, row);
    forall r ensures TimesAccepted(sh', sh'.accepted.Keys, r) == TimesAccepted(sh, sh.accepted.Keys, r) {
      SameTimes(sh, sh', sh.accepted.Keys, r);
    }
  }

  lemma StepBalanced(cfg: Config, st: System, step: Step, d: nat, made: seq<Row>)
    requires Enabled(cfg, st, step) && d in st.shards && Balanced(st.shards[d], made)
    ensures d in Next(cfg, st, step).shards
    ensures Balanced(Next(cfg, st, step).shards[d], made + MadeBy(step, d))
  {
    hide Balanced, ReceiveAll, Blocks, NextRows, HasUnknown, IsOrderOf;
    var sh' := Next(cfg, st, step).shards[d];
    if step.Produce? && step.shard == d {
      ProduceBalanced(st.shards[d], step.row, made);
    } else {
      assert made + [] == made;
      if step.Deliver? && step.message.dest == d {
        ReceiveAllBalanced(st.shards[d], step.message.forwards, made);
      } else {
        SameBalanced(st.shards[d], sh', made);
      }
    }
  }

  lemma FreshBalanced()
    ensures Balanced(FRESH, [])
  {
  }

  /** Conservation: in every run a receiver table has ever been given exactly the rows produced there and the rows
      accepted from originators, each as often as it was produced and accepted. */
  lemma {:induction false} RowsConserved(cfg: Config, steps: seq<Step>, d: nat, row: Row)
    requires Run(cfg, steps).Some? && d in cfg.shards
    ensures d in Run(cfg, steps).value.shards
    ensures var sh := Run(cfg, steps).value.shards[d];
            multiset(sh.log)[row] == multiset(Produced(steps, d))[row] + TimesAccepted(sh, sh.accepted.Keys, row)
  {
    AllBalanced(cfg, steps, d);
  }

  lemma {:induction false} AllBalanced(cfg: Config, steps: seq<Step>, d: nat)
    requires Run(cfg, steps).Some? && d in cfg.shards
    ensures d in Run(cfg, steps).value.shards && Balanced(Run(cfg, steps).value.shards[d], Produced(steps, d))
  {
    hide Balanced, Enabled, Next;
    if steps == [] {
      FreshBalanced();
    } else {
      AllBalanced(cfg, steps[..|steps| - 1], d);
      StepBalanced(cfg, Run(cfg, steps[..|steps| - 1]).value, steps[|steps| - 1], d, Produced(steps[..|steps| - 1], d));
    }
  }

  /** So what has been accepted is in the table. */
  lemma {:induction false} AcceptedIsStored(cfg: Config, steps: seq<Step>, d: nat, o: Originator, f: Forward)
    requires Run(cfg, steps).Some? && d in cfg.shards && d in Run(cfg, steps).value.shards
    requires f in AcceptedFrom(Run(cfg, steps).value.shards[d], o)
    ensures f.row in Run(cfg, steps).value.shards[d].log
  {
    hide Run, TimesAccepted;
    var sh := Run(cfg, steps).value.shards[d];
    RowsConserved(cfg, steps, d, f.row);
    TakeOut(sh, sh.accepted.Keys, f.row, o);
    var i :| 0 <= i < |AcceptedFrom(sh, o)| && AcceptedFrom(sh, o)[i] == f;
    Occurs(AcceptedFrom(sh, o), i);
    assert multiset(sh.log)[f.row] > 0;
  }

  lemma {:induction false} Occurs(fs: seq<Forward>, i: nat)
    requires i < |fs|
    ensures Occurrences(fs, fs[i].row) > 0
  {
    if i < |fs| - 1 {
      Occurs(fs[..|fs| - 1], i);
    }
  }

  /** So the side condition of beginning a batch, that its rows exist, never holds a batch back. */
  lemma {:induction false} AlwaysReadable(cfg: Config, steps: seq<Step>, s: nat, n: nat)
    requires Run(cfg, steps).Some? && s in cfg.shards
    requires var sh := Run(cfg, steps).value.shards;
             s in sh && sh[s].batch.None? && !sh[s].failed && (sh[s].first || 0 < n <= |sh[s].queue|)
    ensures CanBegin(Run(cfg, steps).value.shards[s], n)
  {
    AtMostOnce(cfg, steps);
    NextRowsStored(Run(cfg, steps).value.shards[s], n);
  }

  // ---- Rows that are lost -------------------------------------------------------------------------------

  /** The shard has accepted something later from the originator, but not this row. */
  predicate Lost(sh: Shard, o: Originator, n: nat) {
    && 0 < n <= LastSequence(sh, o)
    && forall i :: 0 <= i < |AcceptedFrom(sh, o)| ==> AcceptedFrom(sh, o)[i].sequence != n
  }

  lemma ReceiveKeepsLost(sh: Shard, f: Forward, o: Originator, n: nat)
    requires Lost(sh, o, n)
    ensures Lost(Receive(sh, f), o, n)
  {
    if !IsDuplicate(sh.dedup, f) && f.origin == o {
      assert AcceptedFrom(Receive(sh, f), o) == AcceptedFrom(sh, o) + [f];
    } else {
      assert AcceptedFrom(Receive(sh, f), o) == AcceptedFrom(sh, o);
    }
  }

  lemma {:induction false} ReceiveAllKeepsLost(sh: Shard, fs: seq<Forward>, o: Originator, n: nat)
    requires Lost(sh, o, n)
    ensures Lost(ReceiveAll(sh, fs), o, n)
  {
    if fs != [] {
      ReceiveAllKeepsLost(sh, fs[..|fs| - 1], o, n);
      ReceiveKeepsLost(ReceiveAll(sh, fs[..|fs| - 1]), fs[|fs| - 1], o, n);
    }
  }

  lemma StepKeepsLost(cfg: Config, st: System, step: Step, d: nat, o: Originator, n: nat)
    requires Enabled(cfg, st, step) && d in st.shards && Lost(st.shards[d], o, n)
    ensures d in Next(cfg, st, step).shards && Lost(Next(cfg, st, step).shards[d], o, n)
  {
    hide ReceiveAll, Blocks, NextRows, HasUnknown, IsOrderOf;
    if step.Deliver? && step.message.dest == d {
      ReceiveAllKeepsLost(st.shards[d], step.message.forwards, o, n);
    } else {
      var sh' := Next(cfg, st, step).shards[d];
      assert sh'.accepted == st.shards[d].accepted && sh'.dedup == st.shards[d].dedup;
      assert AcceptedFrom(sh', o) == AcceptedFrom(st.shards[d], o);
    }
  }

  /** A lost row stays lost, whatever the system does afterwards: resending cannot help. */
  lemma {:induction false} LostForever(cfg: Config, steps: seq<Step>, more: seq<Step>, d: nat, o: Originator, n: nat)
    requires Run(cfg, steps).Some? && Run(cfg, steps + more).Some?
    requires d in Run(cfg, steps).value.shards && Lost(Run(cfg, steps).value.shards[d], o, n)
    ensures d in Run(cfg, steps + more).value.shards && Lost(Run(cfg, steps + more).value.shards[d], o, n)
  {
    hide Lost, Enabled, Next;
    if more == [] {
      assert steps + more == steps;
    } else {
      var k := |more| - 1;
      assert (steps + more)[..|steps + more| - 1] == steps + more[..k];
      LostForever(cfg, steps, more[..k], d, o, n);
      StepKeepsLost(cfg, Run(cfg, steps + more[..k]).value, more[k], d, o, n);
    }
  }

  lemma RunSnoc(cfg: Config, steps: seq<Step>, step: Step)
    requires Run(cfg, steps).Some? && Enabled(cfg, Run(cfg, steps).value, step)
    ensures Run(cfg, steps + [step]) == Some(Next(cfg, Run(cfg, steps).value, step))
  {
    assert (steps + [step])[..|steps|] == steps;
  }

  lemma {:induction false} Enumerate(edges: set<(nat, nat)>) returns (blocks: seq<(nat, nat)>)
    ensures IsOrderOf(blocks, edges)
  {
    if edges == {} {
      blocks := [];
    } else {
      var e :| e in edges;
      var rest := Enumerate(edges - {e});
      blocks := [e] + rest;
      assert blocks[0] == e && forall i :: 0 < i < |blocks| ==> blocks[i] == rest[i - 1];
      forall x | x in edges ensures x in blocks {
        assert x == e || x in rest;
      }
    }
  }

  /** What dedup lets through is some of what arrives, and includes its highest. */
  lemma {:induction false} RecordsWithin(last: nat, fs: seq<Forward>, n: nat)
    requires forall i :: 0 <= i < |fs| ==> fs[i].sequence > n
    ensures forall i :: 0 <= i < |Records(last, fs)| ==> Records(last, fs)[i].sequence > n
    ensures fs != [] ==> HighestOf(last, Records(last, fs)) >= fs[|fs| - 1].sequence
  {
    if fs != [] {
      RecordsWithin(last, fs[..|fs| - 1], n);
    }
  }

  /** A batch whose rows for an originator all come after `n` buries `n`. */
  lemma DeliveryBuries(sh: Shard, fs: seq<Forward>, o: Originator, n: nat)
    requires DedupMatches(sh) && Positive(fs)
    requires forall i :: 0 <= i < |AcceptedFrom(sh, o)| ==> AcceptedFrom(sh, o)[i].sequence != n
    requires n > 0 && Project(fs, o) != [] && forall i :: 0 <= i < |Project(fs, o)| ==> Project(fs, o)[i].sequence > n
    ensures Lost(ReceiveAll(sh, fs), o, n)
  {
    hide ReceiveAll, Project, Records, DedupMatches;
    var last := LastSequence(sh, o);
    ReceiveAllRecords(sh, fs, o);
    RecordsWithin(last, Project(fs, o), n);
    LastIsHighest(sh, o);
    LastIsHighest(ReceiveAll(sh, fs), o);
  }

  // Giving up a batch

  /** A shard between batches whose next row is lo + 1. */
  predicate NextIs(sh: Shard, lo: nat) {
    && sh.batch.None? && !sh.failed && !sh.first && sh.lastProcessed == lo
    && |sh.log| - lo <= |sh.queue| <= |sh.log| && lo <= |sh.log|
    && sh.queue == Range(|sh.log| - |sh.queue|, |sh.log|)
  }

  /** Giving up a batch moves past its rows. */
  lemma AfterSkip(sh: Shard, k: nat)
    requires Progress(sh) && CanBegin(sh, k) && NextRows(sh, k) != []
    ensures var rows := NextRows(sh, k);
            var lo := |sh.effects| + |rows|;
            && rows == Range(|sh.effects|, lo) && lo <= |sh.log|
            && NextIs(Taken(sh, k).(lastProcessed := rows[|rows| - 1]), lo)
  {
    hide Range, NextRows;
    NextRowsFollow(sh, k);
    NextRowsAre(sh, k);
  }

  lemma ArrivalRows(first: nat, n: nat, lo: nat)
    requires first <= lo <= n
    ensures DropProcessed(Range(first, n) + [n + 1], lo) == Range(lo, n + 1)
  {
    hide DropProcessed, Range;
    RangeSnoc(first, n);
    DropFromRange(first, n + 1, lo);
  }

  /** A row that arrives now is taken together with what was queued. */
  lemma AfterArrival(sh: Shard, lo: nat, row: Row)
    requires NextIs(sh, lo)
    ensures var sh' := Append(sh, row);
            CanBegin(sh', |sh'.queue|) && NextRows(sh', |sh'.queue|) == Range(lo, |sh.log| + 1)
  {
    hide DropProcessed, Range, Stored;
    var sh' := Append(sh, row);
    TakeAll(sh'.queue);
    ArrivalRows(|sh.log| - |sh.queue|, |sh.log|, lo);
    RangeStored(sh'.log, lo);
  }

  lemma TakeAll(queue: seq<nat>)
    ensures queue[..|queue|] == queue
  {
  }

  lemma RangeStored(log: seq<Row>, lo: nat)
    ensures Stored(log, Range(lo, |log|))
  {
  }

  lemma {:induction false} SegmentAbove(cfg: Config, s: nat, log: seq<Row>, t: nat, d: nat, lo: nat, hi: nat)
    requires lo <= hi <= |log|
    ensures var fs := Segment(cfg, s, log, t, d, lo, hi);
            && (forall i :: 0 <= i < |fs| ==> fs[i].sequence > lo)
            && (lo < hi && RoutesTo(cfg, log[hi - 1], t, d) ==> fs != [])
  {
    if lo < hi {
      SegmentAbove(cfg, s, log, t, d, lo, hi - 1);
    }
  }

  /** The message a batch of later rows sends: it has something for the originator, all of it later. */
  lemma LaterMessage(cfg: Config, s: nat, log: seq<Row>, lo: nat, hi: nat, blocks: seq<(nat, nat)>, t: nat, d: nat)
    requires NeverMeet(cfg) && d in cfg.shards && IsOrderOf(blocks, cfg.edges) && lo < hi <= |log|
    requires RoutesTo(cfg, log[hi - 1], t, d)
    ensures var fs := Blocks(cfg, s, log, Range(lo, hi), blocks, d);
            var mine := Project(fs, Originator(t, s));
            && Positive(fs) && mine != [] && fs != []
            && forall i :: 0 <= i < |mine| ==> mine[i].sequence > lo
  {
    hide Blocks, Routed, Segment, IsOrderOf, NeverMeet, RoutesTo;
    var fs := Blocks(cfg, s, log, Range(lo, hi), blocks, d);
    MessageIsRouted(cfg, s, log, lo, hi, blocks, t, d);
    SegmentCompletes(cfg, s, log, t, d, lo, hi);
    Cancel(Routed(cfg, s, log, t, d, lo), Project(fs, Originator(t, s)), Segment(cfg, s, log, t, d, lo, hi));
    SegmentAbove(cfg, s, log, t, d, lo, hi);
  }

  function Consumers(log: seq<Row>): set<nat> {
    set i | 0 <= i < |log| :: log[i].consumer
  }

  /** From a shard that can begin with later rows to the state in which row n is lost. */
  lemma BatchBuries(cfg: Config, st: System, s: nat, k: nat, lo: nat, blocks: seq<(nat, nat)>, d: nat, t: nat, n: nat)
    returns (m: Message)
    requires NeverMeet(cfg) && IsOrderOf(blocks, cfg.edges) && st.shards.Keys == cfg.shards
    requires s in st.shards && d in st.shards && CanBegin(st.shards[s], k) && DedupMatches(st.shards[d])
    requires 0 < n <= lo < |st.shards[s].log| && NextRows(st.shards[s], k) == Range(lo, |st.shards[s].log|)
    requires RoutesTo(cfg, st.shards[s].log[|st.shards[s].log| - 1], t, d)
    requires forall i :: 0 <= i < |AcceptedFrom(st.shards[d], Originator(t, s))| ==>
      AcceptedFrom(st.shards[d], Originator(t, s))[i].sequence != n
    ensures var begin := Begin(s, k, blocks, Consumers(st.shards[s].log));
            && Enabled(cfg, st, begin)
            && Enabled(cfg, Next(cfg, st, begin), Deliver(m))
            && m.dest == d && d in Next(cfg, Next(cfg, st, begin), Deliver(m)).shards
            && Lost(Next(cfg, Next(cfg, st, begin), Deliver(m)).shards[d], Originator(t, s), n)
  {
    hide Blocks, IsOrderOf, NeverMeet, RoutesTo, DedupMatches, Lost, NextRows, Range;
    var sh := st.shards[s];
    var rows := NextRows(sh, k);
    var fs := Blocks(cfg, s, sh.log, rows, blocks, d);
    LaterMessage(cfg, s, sh.log, lo, |sh.log|, blocks, t, d);
    m := Message(s, d, rows, fs);
    assert !HasUnknown(sh, rows, Consumers(sh.log));
    var st' := DoBegin(cfg, st, s, k, blocks, Consumers(sh.log));
    assert m in Messages(cfg, s, sh.log, rows, blocks);
    assert st'.shards[d].accepted == st.shards[d].accepted && st'.shards[d].dedup == st.shards[d].dedup;
    assert AcceptedFrom(st'.shards[d], Originator(t, s)) == AcceptedFrom(st.shards[d], Originator(t, s));
    SameDedup(st.shards[d], st'.shards[d]);
    DeliveryBuries(st'.shards[d], fs, Originator(t, s), n);
  }

  lemma SameDedup(sh: Shard, sh': Shard)
    requires DedupMatches(sh) && sh'.dedup == sh.dedup && sh'.accepted == sh.accepted
    ensures DedupMatches(sh')
    ensures forall o :: AcceptedFrom(sh', o) == AcceptedFrom(sh, o)
  {
    assert forall o :: AcceptedFrom(sh', o) == AcceptedFrom(sh, o);
  }

  lemma SkipState(cfg: Config, st: System, skip: Step)
    requires skip.Begin? && Enabled(cfg, st, skip) && Skips(st, skip)
    ensures var rows := NextRows(st.shards[skip.shard], skip.n);
            && rows != []
            && Next(cfg, st, skip) == Update(st, skip.shard,
              Taken(st.shards[skip.shard], skip.n).(lastProcessed := rows[|rows| - 1]))
  {
    hide NextRows, Messages, IsOrderOf;
  }

  /** The skip is where exactly-once is lost: whenever a run that was fine so far gives up a batch with
      a row that is due to a shard and has not reached it, the system can go on, without any failure,
      to a state in which that row is lost, and so lost for good. */
  lemma {:induction false} SkipLosesRow(cfg: Config, steps: seq<Step>, skip: Step, d: nat, t: nat, n: nat)
    returns (more: seq<Step>)
    requires NeverMeet(cfg) && NeverSkips(cfg, steps) && Run(cfg, steps).Some?
    requires var st := Run(cfg, steps).value;
             && skip.Begin? && Enabled(cfg, st, skip) && Skips(st, skip)
             && var sh := st.shards[skip.shard];
                && n in NextRows(sh, skip.n) && RoutesTo(cfg, sh.log[n - 1], t, d)
                && d in st.shards
                && forall i :: 0 <= i < |AcceptedFrom(st.shards[d], Originator(t, skip.shard))| ==>
                     AcceptedFrom(st.shards[d], Originator(t, skip.shard))[i].sequence != n
    ensures var end := Run(cfg, steps + [skip] + more);
            && end.Some? && d in end.value.shards && Lost(end.value.shards[d], Originator(t, skip.shard), n)
    ensures forall i :: 0 <= i < |more| ==> !more[i].Fail? && !more[i].Restart?
  {
    hide Next, Inv, Sound, Lost, NextRows, RoutesTo, Run, AcceptedFrom, IsOrderOf, HasUnknown;
    var st := Run(cfg, steps).value;
    var s := skip.shard;
    RunInv(cfg, steps);
    AtMostOnce(cfg, steps);
    var st1 := Next(cfg, st, skip);
    RunSnoc(cfg, steps, skip);
    var produce := Produce(s, st.shards[s].log[n - 1]);
    var blocks := Enumerate(cfg.edges);
    var begin, m := SkipThen(cfg, st, skip, produce, blocks, d, t, n);
    RunSnoc(cfg, steps + [skip], produce);
    RunSnoc(cfg, steps + [skip] + [produce], begin);
    RunSnoc(cfg, steps + [skip] + [produce] + [begin], Deliver(m));
    more := [produce] + [begin] + [Deliver(m)];
    assert steps + [skip] + more == steps + [skip] + [produce] + [begin] + [Deliver(m)];
  }

  lemma SkipThen(cfg: Config, st: System, skip: Step, produce: Step, blocks: seq<(nat, nat)>, d: nat, t: nat, n: nat)
    returns (begin: Step, m: Message)
    requires NeverMeet(cfg) && IsOrderOf(blocks, cfg.edges) && Inv(cfg, st) && Sound(cfg, st)
    requires skip.Begin? && Enabled(cfg, st, skip) && Skips(st, skip)
    requires var sh := st.shards[skip.shard];
             && n in NextRows(sh, skip.n) && RoutesTo(cfg, sh.log[n - 1], t, d)
             && d in st.shards && produce == Produce(skip.shard, sh.log[n - 1])
             && forall i :: 0 <= i < |AcceptedFrom(st.shards[d], Originator(t, skip.shard))| ==>
                  AcceptedFrom(st.shards[d], Originator(t, skip.shard))[i].sequence != n
    ensures begin.Begin?
    ensures Enabled(cfg, Next(cfg, st, skip), produce)
    ensures Enabled(cfg, Next(cfg, Next(cfg, st, skip), produce), begin)
    ensures var st' := Next(cfg, Next(cfg, Next(cfg, st, skip), produce), begin);
            && Enabled(cfg, st', Deliver(m))
            && d in Next(cfg, st', Deliver(m)).shards
            && Lost(Next(cfg, st', Deliver(m)).shards[d], Originator(t, skip.shard), n)
  {
    hide Lost, NextRows, RoutesTo, DedupMatches, IsOrderOf, NeverMeet, HasUnknown, Inv, Sound, Next;
    var lo := SkipProduceState(cfg, st, skip, produce, n, d, Originator(t, skip.shard));
    var st2 := Next(cfg, Next(cfg, st, skip), produce);
    var k := |st2.shards[skip.shard].queue|;
    begin := Begin(skip.shard, k, blocks, Consumers(st2.shards[skip.shard].log));
    m := BatchBuries(cfg, st2, skip.shard, k, lo, blocks, d, t, n);
  }

  /** The shard after giving up the batch and storing one more row. */
  lemma SkipProduceState(cfg: Config, st: System, skip: Step, produce: Step, n: nat, d: nat, o: Originator)
    returns (lo: nat)
    requires Inv(cfg, st) && skip.Begin? && Enabled(cfg, st, skip) && Skips(st, skip) && d in st.shards
    requires n in NextRows(st.shards[skip.shard], skip.n)
    requires produce == Produce(skip.shard, st.shards[skip.shard].log[n - 1])
    ensures Enabled(cfg, Next(cfg, st, skip), produce)
    ensures var st2 := Next(cfg, Next(cfg, st, skip), produce);
            && st2.shards.Keys == cfg.shards && skip.shard in st2.shards && d in st2.shards
            && var (sh, sh2) := (st.shards[skip.shard], st2.shards[skip.shard]);
               && sh2.log == sh.log + [sh.log[n - 1]]
               && 0 < n <= lo < |sh2.log| && CanBegin(sh2, |sh2.queue|)
               && NextRows(sh2, |sh2.queue|) == Range(lo, |sh2.log|)
               && DedupMatches(st2.shards[d]) && AcceptedFrom(st2.shards[d], o) == AcceptedFrom(st.shards[d], o)
  {
    hide NextRows, DedupMatches, Progress, Faithful, Covers, Exact, IsOrderOf, HasUnknown, Messages, DoBegin;
    var s := skip.shard;
    var sh := st.shards[s];
    assert Orderly(sh) && Orderly(st.shards[d]);
    SkipState(cfg, st, skip);
    AfterSkip(sh, skip.n);
    var rows := NextRows(sh, skip.n);
    lo := |sh.effects| + |rows|;
    var sh1 := Taken(sh, skip.n).(lastProcessed := rows[|rows| - 1]);
    AfterArrival(sh1, lo, sh.log[n - 1]);
    SameDedup(sh, Append(sh1, sh.log[n - 1]));
  }

  // Two consumers that feed one table

  lemma {:induction false} BlocksCons(cfg: Config, s: nat, log: seq<Row>, rows: seq<nat>, e: (nat, nat),
                                      rest: seq<(nat, nat)>, d: nat)
    requires Stored(log, rows)
    ensures Blocks(cfg, s, log, rows, [e] + rest, d)
      == Block(cfg, s, log, rows, e, d) + Blocks(cfg, s, log, rows, rest, d)
  {
    if rest == [] {
      assert [e] + rest == [e];
      assert Blocks(cfg, s, log, rows, [], d) == [];
    } else {
      var n := |rest| - 1;
      BlocksCons(cfg, s, log, rows, e, rest[..n], d);
      assert ([e] + rest)[..n + 1] == [e] + rest[..n];
      ConcatAssociates(Block(cfg, s, log, rows, e, d), Blocks(cfg, s, log, rows, rest[..n], d),
        Block(cfg, s, log, rows, rest[n], d));
    }
  }

  predicate AtMost(fs: seq<Forward>, n: nat) {
    forall i :: 0 <= i < |fs| ==> fs[i].sequence <= n
  }

  /** With one row per consumer, the blocks of other feeders of the table carry only row 1. */
  lemma OtherBlock(cfg: Config, s: nat, log: seq<Row>, e: (nat, nat), d: nat)
    requires |log| == 2 && e.0 != log[1].consumer
    ensures AtMost(Block(cfg, s, log, [1, 2], e, d), 1)
  {
    assert [1, 2][..1] == [1] && [1][..0] == [];
    assert Block(cfg, s, log, [1, 2], e, d) == Block(cfg, s, log, [1], e, d);
  }

  lemma {:induction false} OtherBlocks(cfg: Config, s: nat, log: seq<Row>, rest: seq<(nat, nat)>, t: nat, d: nat)
    requires |log| == 2
    requires forall i :: 0 <= i < |rest| && rest[i].1 == t ==> rest[i].0 != log[1].consumer
    ensures AtMost(Project(Blocks(cfg, s, log, [1, 2], rest, d), Originator(t, s)), 1)
  {
    if rest != [] {
      var n := |rest| - 1;
      OtherBlocks(cfg, s, log, rest[..n], t, d);
      var front, last := Blocks(cfg, s, log, [1, 2], rest[..n], d), Block(cfg, s, log, [1, 2], rest[n], d);
      ProjectConcat(front, last, Originator(t, s));
      BlockOrigins(cfg, s, log, [1, 2], rest[n], d);
      if rest[n].1 == t {
        OtherBlock(cfg, s, log, rest[n], d);
      }
    }
  }

  /** Whatever comes after sequence 2, sequence 1 no longer gets through. */
  lemma {:induction false} RecordsAfterTwo(f: Forward, fs: seq<Forward>)
    requires f.sequence == 2 && AtMost(fs, 1)
    ensures Records(0, [f] + fs) == [f]
  {
    if fs == [] {
      assert [f] + fs == [f];
      assert Records(0, []) == [];
      RecordsSnoc(0, [], f);
      assert [] + [f] == [f];
    } else {
      var n := |fs| - 1;
      RecordsAfterTwo(f, fs[..n]);
      assert [f] + fs == ([f] + fs[..n]) + [fs[n]];
      RecordsSnoc(0, [f] + fs[..n], fs[n]);
    }
  }

  lemma {:induction false} SecondBlock(cfg: Config, s: nat, log: seq<Row>, t: nat, d: nat)
    requires |log| == 2 && log[0].consumer != log[1].consumer && RoutesTo(cfg, log[1], t, d)
    ensures Block(cfg, s, log, [1, 2], (log[1].consumer, t), d) == [ForwardOf(cfg, s, t, 2, log[1])]
  {
    var e, none, one, two := (log[1].consumer, t), [], [1], [1, 2];
    assert two[..|two| - 1] == one && one[..|one| - 1] == none;
    assert Block(cfg, s, log, none, e, d) == [];
    assert Block(cfg, s, log, one, e, d) == [];
  }

  /** The block of row 2's consumer, when it is handled first, puts sequence 2 before sequence 1. */
  lemma {:induction false} SecondFirst(cfg: Config, s: nat, log: seq<Row>, t: nat, d: nat, rest: seq<(nat, nat)>)
    requires |log| == 2 && log[0].consumer != log[1].consumer && RoutesTo(cfg, log[1], t, d)
    requires forall i :: 0 <= i < |rest| && rest[i].1 == t ==> rest[i].0 != log[1].consumer
    ensures var fs := Blocks(cfg, s, log, [1, 2], [(log[1].consumer, t)] + rest, d);
            && fs != [] && Positive(fs)
            && Records(0, Project(fs, Originator(t, s))) == [ForwardOf(cfg, s, t, 2, log[1])]
  {
    hide Records, Blocks, Block;
    var e := (log[1].consumer, t);
    var f := ForwardOf(cfg, s, t, 2, log[1]);
    BlocksCons(cfg, s, log, [1, 2], e, rest, d);
    SecondBlock(cfg, s, log, t, d);
    ProjectConcat([f], Blocks(cfg, s, log, [1, 2], rest, d), Originator(t, s));
    OtherBlocks(cfg, s, log, rest, t, d);
    assert Project([f], Originator(t, s)) == [f];
    ForeignEmpty(cfg, s, log, [1, 2], [e] + rest, d);
    RecordsAfterTwo(f, Project(Blocks(cfg, s, log, [1, 2], rest, d), Originator(t, s)));
  }

  /** Two rows in a new shard. */
  function TwoRows(cfg: Config, s: nat, row1: Row, row2: Row): System
    requires s in cfg.shards
  {
    Update(Initial(cfg), s, Append(Append(FRESH, row1), row2))
  }

  lemma TwoRowsRun(cfg: Config, s: nat, row1: Row, row2: Row)
    requires s in cfg.shards
    ensures Run(cfg, [Produce(s, row1)] + [Produce(s, row2)]) == Some(TwoRows(cfg, s, row1, row2))
    ensures NeverSkips(cfg, [Produce(s, row1)] + [Produce(s, row2)])
  {
    var one := [Produce(s, row1)];
    assert one == [] + one;
    RunSnoc(cfg, [], Produce(s, row1));
    RunSnoc(cfg, one, Produce(s, row2));
    NeverSkipsSnoc(cfg, [], Produce(s, row1));
    NeverSkipsSnoc(cfg, one, Produce(s, row2));
    var all: map<nat, Shard> := Initial(cfg).shards;
    assert all[s := Append(FRESH, row1)][s := Append(Append(FRESH, row1), row2)]
      == all[s := Append(Append(FRESH, row1), row2)];
  }

  lemma NeverSkipsSnoc(cfg: Config, steps: seq<Step>, step: Step)
    requires NeverSkips(cfg, steps) && Run(cfg, steps).Some? && !Skips(Run(cfg, steps).value, step)
    ensures NeverSkips(cfg, steps + [step])
  {
    assert (steps + [step])[..|steps|] == steps;
  }

  lemma TwoRowsNext(sh: Shard, row1: Row, row2: Row)
    requires sh == Append(Append(FRESH, row1), row2)
    ensures CanBegin(sh, 0) && NextRows(sh, 0) == [1, 2]
  {
    assert sh.pending == {1, 2};
    assert Ascending(sh.pending, 0) == [];
    assert Ascending(sh.pending, 1) == [1];
    assert Ascending(sh.pending, 2) == [1, 2];
  }

  lemma {:induction false} ReceiveAllLog(sh: Shard, fs: seq<Forward>)
    ensures sh.log <= ReceiveAll(sh, fs).log
  {
    if fs != [] {
      ReceiveAllLog(sh, fs[..|fs| - 1]);
    }
  }

  /** A shard that has accepted nothing and is sent sequence 2 before sequence 1. */
  lemma SecondBuriesFirst(sh: Shard, fs: seq<Forward>, o: Originator, f: Forward)
    requires sh.dedup == map[] && sh.accepted == map[] && Positive(fs)
    requires f.sequence == 2 && Records(0, Project(fs, o)) == [f]
    ensures Lost(ReceiveAll(sh, fs), o, 1)
  {
    ReceiveAllRecords(sh, fs, o);
    LastIsHighest(ReceiveAll(sh, fs), o);
    assert AcceptedFrom(ReceiveAll(sh, fs), o) == [f];
  }

  /** The batch of both rows, delivered. */
  lemma TwoRowsBatch(cfg: Config, s: nat, d: nat, t: nat, row1: Row, row2: Row, blocks: seq<(nat, nat)>)
    returns (m: Message)
    requires s in cfg.shards && d in cfg.shards && row1.consumer != row2.consumer
    requires RoutesTo(cfg, row2, t, d)
    requires IsOrderOf(blocks, cfg.edges) && blocks != [] && blocks[0] == (row2.consumer, t)
    requires forall i :: 0 <= i < |blocks[1..]| && blocks[1..][i].1 == t ==> blocks[1..][i].0 != row2.consumer
    ensures var st, begin := TwoRows(cfg, s, row1, row2), Begin(s, 0, blocks, {row1.consumer, row2.consumer});
            && Enabled(cfg, st, begin) && !Skips(st, begin)
            && Enabled(cfg, Next(cfg, st, begin), Deliver(m))
            && var st' := Next(cfg, Next(cfg, st, begin), Deliver(m));
               && s in st'.shards && d in st'.shards && [row1, row2] <= st'.shards[s].log
               && Lost(st'.shards[d], Originator(t, s), 1)
  {
    hide RoutesTo, IsOrderOf, Blocks, Records, Project, Lost, NextRows;
    var st, begin := TwoRows(cfg, s, row1, row2), Begin(s, 0, blocks, {row1.consumer, row2.consumer});
    var sh := st.shards[s];
    TwoRowsNext(sh, row1, row2);
    assert sh.log == [row1, row2];
    assert blocks == [(row2.consumer, t)] + blocks[1..];
    SecondFirst(cfg, s, sh.log, t, d, blocks[1..]);
    var fs := Blocks(cfg, s, sh.log, [1, 2], blocks, d);
    m := Message(s, d, [1, 2], fs);
    var st' := Next(cfg, st, begin);
    assert m in Messages(cfg, s, sh.log, [1, 2], blocks);
    SecondBuriesFirst(st'.shards[d], fs, Originator(t, s), ForwardOf(cfg, s, t, 2, row2));
    ReceiveAllLog(st'.shards[d], fs);
  }

  /** Why rows of two consumers must never meet: if they do, for some table and shard, there is a run, without
      failures and without unknown consumers, in which the first of two rows is lost. */
  lemma {:induction false} TwoFeedersLoseRow(cfg: Config, s: nat, d: nat, t: nat, row1: Row, row2: Row)
    returns (steps: seq<Step>)
    requires s in cfg.shards && d in cfg.shards && row1.consumer != row2.consumer
    requires RoutesTo(cfg, row1, t, d) && RoutesTo(cfg, row2, t, d)
    ensures forall i :: 0 <= i < |steps| ==> !steps[i].Fail? && !steps[i].Restart?
    ensures Run(cfg, steps).Some? && NeverSkips(cfg, steps)
    ensures var st := Run(cfg, steps).value;
            && s in st.shards && d in st.shards && [row1, row2] <= st.shards[s].log
            && Lost(st.shards[d], Originator(t, s), 1)
  {
    hide RoutesTo, IsOrderOf, Lost, Next, Run, NeverSkips, TwoRows, Enabled;
    var produced := [Produce(s, row1)] + [Produce(s, row2)];
    TwoRowsRun(cfg, s, row1, row2);
    var blocks := SecondFeederFirst(cfg, row2, t, d);
    var m := TwoRowsBatch(cfg, s, d, t, row1, row2, blocks);
    var begin := Begin(s, 0, blocks, {row1.consumer, row2.consumer});
    RunSnoc(cfg, produced, begin);
    NeverSkipsSnoc(cfg, produced, begin);
    RunSnoc(cfg, produced + [begin], Deliver(m));
    NeverSkipsSnoc(cfg, produced + [begin], Deliver(m));
    steps := produced + [begin] + [Deliver(m)];
  }

  lemma SecondFeederFirst(cfg: Config, row2: Row, t: nat, d: nat) returns (blocks: seq<(nat, nat)>)
    requires RoutesTo(cfg, row2, t, d)
    ensures IsOrderOf(blocks, cfg.edges) && blocks != [] && blocks[0] == (row2.consumer, t)
    ensures forall i :: 0 <= i < |blocks[1..]| && blocks[1..][i].1 == t ==> blocks[1..][i].0 != row2.consumer
  {
    var e := (row2.consumer, t);
    var rest := Enumerate(cfg.edges - {e});
    blocks := [e] + rest;
    assert forall i :: 0 < i < |blocks| ==> blocks[i] == rest[i - 1];
    forall x | x in cfg.edges ensures x in blocks {
      assert x == e || x in rest;
    }
  }

  /** So the condition of `ExactlyOnce` is exact: where it does not hold, some run loses a row. */
  lemma {:induction false} MeetingLosesRow(cfg: Config) returns (steps: seq<Step>, d: nat, o: Originator)
    requires !NeverMeet(cfg)
    ensures Run(cfg, steps).Some? && NeverSkips(cfg, steps)
    ensures d in Run(cfg, steps).value.shards && Lost(Run(cfg, steps).value.shards[d], o, 1)
  {
    hide RoutesTo, Lost, Run, NeverSkips;
    var row1: Row, row2: Row, t: nat, dest: nat :|
      dest in cfg.shards && RoutesTo(cfg, row1, t, dest) && RoutesTo(cfg, row2, t, dest)
        && row1.consumer != row2.consumer;
    steps := TwoFeedersLoseRow(cfg, dest, dest, t, row1, row2);
    d, o := dest, Originator(t, dest);
  }
}
