/** Exactly-once movement of rows between shards. A shard processes rows of its receiver table in
    batches: it forwards rows to other shards, and only when every forward has been accepted does it
    commit its local effects and delete the rows from the receiver table. Anything may fail in
    between; the receiving state machines screen out what they have seen before. */
module Forwarding {
  import opened Bytes

  /** A row in a receiver table: the remote consumer it is addressed to and its contents. */
  datatype Row = Row(consumer: nat, body: nat)

  /** Where a forwarded row came from: the internal table of the aggregation and the sending shard,
      or a source and its partition. */
  datatype Originator = Originator(table: nat, shard: nat)

  /** A row on its way: the dedup key (originator and sequence) and the row. */
  datatype Forward = Forward(origin: Originator, sequence: nat, row: Row)

  /** The forward batch one shard sends to another for one batch of its rows. */
  datatype Message = Message(source: nat, dest: nat, rows: seq<nat>, forwards: seq<Forward>)

  datatype Batch = Batch(rows: seq<nat>, messages: set<Message>)

  /** `log` holds every row ever written to the receiver table; the receiver sequence of log[i] is
      i + 1. `pending` are the sequences not yet deleted. `accepted` and `effects` are histories. */
  datatype Shard = Shard(
    log: seq<Row>,
    dedup: map<Originator, nat>,
    accepted: map<Originator, seq<Forward>>,
    pending: set<nat>,
    effects: seq<nat>,
    queue: seq<nat>,
    lastProcessed: nat,
    first: bool,
    failed: bool,
    batch: Option<Batch>)

  /** `edges` says which aggregation tables each consumer feeds; `route` gives the shard that owns the
      aggregation key of a row and the row to forward there. */
  datatype Config = Config(
    shards: set<nat>,
    edges: set<(nat, nat)>,
    route: (nat, Row) -> Option<(nat, Row)>)

  datatype System = System(
    shards: map<nat, Shard>,
    sent: set<Message>,
    applied: set<Message>,
    reach: map<(nat, nat), nat>)

  // ---- The receiving state machine ----------------------------------------------------------------

  /** DoDedup's test. */
  predicate IsDuplicate(dedup: map<Originator, nat>, f: Forward) {
    f.origin in dedup && dedup[f.origin] >= f.sequence
  }

  function AcceptedFrom(s: Shard, o: Originator): seq<Forward> {
    if o in s.accepted then s.accepted[o] else []
  }

  /** One forwarded row at the receiving state machine: dropped as a duplicate, or given the next
      receiver sequence, stored, and queued if this shard's processor is running. */
  function Receive(s: Shard, f: Forward): Shard {
    if IsDuplicate(s.dedup, f) then s
    else Append(s.(dedup := s.dedup[f.origin := f.sequence],
                   accepted := s.accepted[f.origin := AcceptedFrom(s, f.origin) + [f]]), f.row)
  }

  /** A row enters the receiver table. */
  function Append(s: Shard, row: Row): Shard {
    var sequence := |s.log| + 1;
    s.(log := s.log + [row], pending := s.pending + {sequence},
       queue := if s.failed then s.queue else s.queue + [sequence])
  }

  function ReceiveAll(s: Shard, fs: seq<Forward>): Shard {
    if fs == [] then s else Receive(ReceiveAll(s, fs[..|fs| - 1]), fs[|fs| - 1])
  }

  /** The forwards of one originator. */
  function Project(fs: seq<Forward>, o: Originator): seq<Forward> {
    if fs == [] then []
    else
      var last := fs[|fs| - 1];
      Project(fs[..|fs| - 1], o) + if last.origin == o then [last] else []
  }

  function LastSequence(s: Shard, o: Originator): nat {
    if o in s.dedup then s.dedup[o] else 0
  }

  /** What dedup lets through: the rows whose sequence exceeds everything before them. */
  function Records(last: nat, fs: seq<Forward>): seq<Forward> {
    if fs == [] then []
    else
      var before := Records(last, fs[..|fs| - 1]);
      var f := fs[|fs| - 1];
      var high := if before == [] then last else before[|before| - 1].sequence;
      before + if f.sequence > high then [f] else []
  }

  /** The dedup table agrees with the history, for every originator. Sequences start at 1. */
  ghost predicate DedupMatches(s: Shard) {
    forall o :: (o in s.dedup <==> AcceptedFrom(s, o) != [])
             && (o in s.dedup ==> s.dedup[o] == AcceptedFrom(s, o)[|AcceptedFrom(s, o)| - 1].sequence)
  }

  predicate Positive(fs: seq<Forward>) {
    forall i :: 0 <= i < |fs| ==> fs[i].sequence > 0
  }

  lemma LastIsHighest(s: Shard, o: Originator)
    requires DedupMatches(s)
    ensures var fs := AcceptedFrom(s, o);
            LastSequence(s, o) == if fs == [] then 0 else fs[|fs| - 1].sequence
  {
  }

  function HighestOf(last: nat, fs: seq<Forward>): nat {
    if fs == [] then last else fs[|fs| - 1].sequence
  }

  lemma RecordsSnoc(last: nat, fs: seq<Forward>, f: Forward)
    ensures var before := Records(last, fs);
            Records(last, fs + [f]) == before + if f.sequence > HighestOf(last, before) then [f] else []
  {
    assert (fs + [f])[..|fs|] == fs;
  }

  /** The receiving state machine lets through exactly the records of each originator's arrivals,
      whatever is interleaved with them. */
  lemma {:induction false} ReceiveAllRecords(s: Shard, fs: seq<Forward>, o: Originator)
    requires DedupMatches(s) && Positive(fs)
    ensures DedupMatches(ReceiveAll(s, fs))
    ensures AcceptedFrom(ReceiveAll(s, fs), o) == AcceptedFrom(s, o) + Records(LastSequence(s, o), Project(fs, o))
  {
    hide Receive, DedupMatches, AcceptedFrom, LastSequence, Records;
    if fs == [] {
      assert Records(LastSequence(s, o), []) == [] by { NoRecords(LastSequence(s, o)); }
    } else {
      var n := |fs| - 1;
      ReceiveAllRecords(s, fs[..n], o);
      var t, f := ReceiveAll(s, fs[..n]), fs[n];
      ReceiveKeepsDedup(t, f);
      if f.origin == o {
        LastIsHighest(s, o);
        LastIsHighest(t, o);
        RecordsSnoc(LastSequence(s, o), Project(fs[..n], o), f);
        assert Project(fs, o) == Project(fs[..n], o) + [f];
      } else {
        assert Project(fs, o) == Project(fs[..n], o);
      }
    }
  }

  lemma NoRecords(last: nat)
    ensures Records(last, []) == []
  {
  }

  lemma ReceiveAccepts(s: Shard, f: Forward, o: Originator)
    requires f.sequence > 0
    ensures AcceptedFrom(Receive(s, f), o) ==
              AcceptedFrom(s, o) + if f.origin == o && f.sequence > LastSequence(s, o) then [f] else []
  {
    assert AcceptedFrom(s, o) + [] == AcceptedFrom(s, o);
  }

  lemma ReceiveKeepsDedup(s: Shard, f: Forward)
    requires DedupMatches(s) && f.sequence > 0
    ensures DedupMatches(Receive(s, f))
    ensures forall o :: AcceptedFrom(Receive(s, f), o) ==
              AcceptedFrom(s, o) + if f.origin == o && f.sequence > LastSequence(s, o) then [f] else []
  {
    hide AcceptedFrom;
    forall o
      ensures AcceptedFrom(Receive(s, f), o) ==
                AcceptedFrom(s, o) + if f.origin == o && f.sequence > LastSequence(s, o) then [f] else []
    {
      ReceiveAccepts(s, f, o);
    }
  }

  // ---- The sending side -----------------------------------------------------------------------------

  predicate RoutesTo(cfg: Config, row: Row, table: nat, dest: nat)
    ensures RoutesTo(cfg, row, table, dest) ==> cfg.route(table, row).Some?
  {
    (row.consumer, table) in cfg.edges && cfg.route(table, row).Some? && cfg.route(table, row).value.0 == dest
  }

  /** All rows that a shard is due for an aggregation table come from one consumer. */
  ghost predicate NeverMeet(cfg: Config) {
    forall row, other: Row, table: nat, dest: nat ::
      dest in cfg.shards && RoutesTo(cfg, row, table, dest) && RoutesTo(cfg, other, table, dest) ==>
        row.consumer == other.consumer
  }

  /** The consumer of the edge is the only one with rows for the edge's table at this shard. */
  ghost predicate OnlyFeeder(cfg: Config, edge: (nat, nat), dest: nat) {
    forall row: Row :: RoutesTo(cfg, row, edge.1, dest) ==> row.consumer == edge.0
  }

  function ForwardOf(cfg: Config, shard: nat, table: nat, sequence: nat, row: Row): Forward
    requires cfg.route(table, row).Some?
  {
    Forward(Originator(table, shard), sequence, cfg.route(table, row).value.1)
  }

  predicate Stored(log: seq<Row>, rows: seq<nat>) {
    forall i :: 0 <= i < |rows| ==> 0 < rows[i] <= |log|
  }

  /** The forwards one consumer's rows of a batch cause for one aggregation table and destination. */
  function Block(cfg: Config, shard: nat, log: seq<Row>, rows: seq<nat>, edge: (nat, nat),
                 dest: nat): (fs: seq<Forward>)
    requires Stored(log, rows)
  {
    if rows == [] then []
    else
      var n := |rows| - 1;
      var row := log[rows[n] - 1];
      Block(cfg, shard, log, rows[..n], edge, dest)
      + if row.consumer == edge.0 && RoutesTo(cfg, row, edge.1, dest)
        then [ForwardOf(cfg, shard, edge.1, rows[n], row)] else []
  }

  /** processReceiveBatch handles the batch consumer by consumer, in whatever order the map of rows
      and the map of consuming nodes are iterated: `blocks` is that order. */
  function Blocks(cfg: Config, shard: nat, log: seq<Row>, rows: seq<nat>, blocks: seq<(nat, nat)>,
                  dest: nat): (fs: seq<Forward>)
    requires Stored(log, rows)
  {
    if blocks == [] then []
    else
      Blocks(cfg, shard, log, rows, blocks[..|blocks| - 1], dest)
      + Block(cfg, shard, log, rows, blocks[|blocks| - 1], dest)
  }

  predicate IsOrderOf(blocks: seq<(nat, nat)>, edges: set<(nat, nat)>) {
    && (forall i :: 0 <= i < |blocks| ==> blocks[i] in edges)
    && (forall e :: e in edges ==> e in blocks)
    && (forall i, j :: 0 <= i < j < |blocks| ==> blocks[i] != blocks[j])
  }

  /** One message per destination that has anything to receive. */
  function Messages(cfg: Config, shard: nat, log: seq<Row>, rows: seq<nat>, blocks: seq<(nat, nat)>): (ms: set<Message>)
    requires Stored(log, rows)
  {
    set d | d in cfg.shards && Blocks(cfg, shard, log, rows, blocks, d) != [] ::
      Message(shard, d, rows, Blocks(cfg, shard, log, rows, blocks, d))
  }

  /** All rows of `log` up to sequence k that are due at `dest` for `table`, in order. */
  function Routed(cfg: Config, shard: nat, log: seq<Row>, table: nat, dest: nat, k: nat): (fs: seq<Forward>)
    requires k <= |log|
  {
    if k == 0 then []
    else
      Routed(cfg, shard, log, table, dest, k - 1)
      + if RoutesTo(cfg, log[k - 1], table, dest) then [ForwardOf(cfg, shard, table, k, log[k - 1])] else []
  }

  /** In terms of the configuration alone: a row of the log is fed to the table and routed to the shard. */
  predicate IsDue(cfg: Config, row: Row, t: nat, d: nat) {
    && (row.consumer, t) in cfg.edges
    && match cfg.route(t, row) { case Some((dest, _)) => dest == d case None => false }
  }

  /** Each forward is a row of the log up to sequence k that is due, with the row that the routing gives; they are in
      order. */
  predicate OnlyDueRows(cfg: Config, log: seq<Row>, s: nat, t: nat, d: nat, k: nat, fs: seq<Forward>)
    requires k <= |log|
  {
    && (forall i, j :: 0 <= i < j < |fs| ==> fs[i].sequence < fs[j].sequence)
    && (forall i :: 0 <= i < |fs| ==>
          && fs[i].origin == Originator(t, s) && 0 < fs[i].sequence <= k
          && IsDue(cfg, log[fs[i].sequence - 1], t, d)
          && cfg.route(t, log[fs[i].sequence - 1]) == Some((d, fs[i].row)))
  }

  /** Every row of the log up to sequence k that is due has been forwarded. */
  predicate AllDueRows(cfg: Config, log: seq<Row>, t: nat, d: nat, k: nat, fs: seq<Forward>)
    requires k <= |log|
  {
    forall n :: 0 <= n < k && IsDue(cfg, log[n], t, d) ==> exists i :: 0 <= i < |fs| && fs[i].sequence == n + 1
  }

  lemma {:induction false} RoutedAreDue(cfg: Config, log: seq<Row>, s: nat, t: nat, d: nat, k: nat)
    requires k <= |log|
    ensures OnlyDueRows(cfg, log, s, t, d, k, Routed(cfg, s, log, t, d, k))
  {
    if k > 0 {
      RoutedAreDue(cfg, log, s, t, d, k - 1);
    }
  }

  lemma {:induction false} DueAreRouted(cfg: Config, log: seq<Row>, s: nat, t: nat, d: nat, k: nat, n: nat)
    requires n < k <= |log| && IsDue(cfg, log[n], t, d)
    ensures exists i :: 0 <= i < |Routed(cfg, s, log, t, d, k)| && Routed(cfg, s, log, t, d, k)[i].sequence == n + 1
  {
    var (before, fs) := (Routed(cfg, s, log, t, d, k - 1), Routed(cfg, s, log, t, d, k));
    if n < k - 1 {
      DueAreRouted(cfg, log, s, t, d, k - 1, n);
      var i :| 0 <= i < |before| && before[i].sequence == n + 1;
      assert fs[i] == before[i];
    } else {
      assert fs[|before|].sequence == n + 1;
    }
  }

  lemma RoutedIsWhatIsDue(cfg: Config, log: seq<Row>, s: nat, t: nat, d: nat, k: nat)
    requires k <= |log|
    ensures OnlyDueRows(cfg, log, s, t, d, k, Routed(cfg, s, log, t, d, k))
    ensures AllDueRows(cfg, log, t, d, k, Routed(cfg, s, log, t, d, k))
  {
    hide Routed, IsDue;
    RoutedAreDue(cfg, log, s, t, d, k);
    forall n: nat | n < k && IsDue(cfg, log[n], t, d)
      ensures exists i :: 0 <= i < |Routed(cfg, s, log, t, d, k)| && Routed(cfg, s, log, t, d, k)[i].sequence == n + 1
    {
      DueAreRouted(cfg, log, s, t, d, k, n);
    }
  }

  /** The sequences lo + 1 .. hi. */
  function Range(lo: nat, hi: nat): (r: seq<nat>)
    ensures |r| == if lo <= hi then hi - lo else 0
    ensures forall i :: 0 <= i < |r| ==> r[i] == lo + 1 + i
  {
    if hi <= lo then [] else Range(lo, hi - 1) + [hi]
  }

  lemma BlockSnoc(cfg: Config, shard: nat, log: seq<Row>, rows: seq<nat>, k: nat, edge: (nat, nat), dest: nat)
    requires OnlyFeeder(cfg, edge, dest) && Stored(log, rows) && 0 < k <= |log|
    ensures Block(cfg, shard, log, rows + [k], edge, dest)
         == Block(cfg, shard, log, rows, edge, dest)
            + if RoutesTo(cfg, log[k - 1], edge.1, dest) then [ForwardOf(cfg, shard, edge.1, k, log[k - 1])] else []
  {
    assert (rows + [k])[..|rows|] == rows;
  }

  lemma ConcatAssociates(a: seq<Forward>, b: seq<Forward>, c: seq<Forward>)
    ensures (a + b) + c == a + (b + c)
  {
  }

  /** The block of a table's only feeder carries exactly the routed rows of the batch. */
  lemma {:induction false} BlockIsRouted(cfg: Config, shard: nat, log: seq<Row>, lo: nat, hi: nat, edge: (nat, nat),
                                         dest: nat)
    requires OnlyFeeder(cfg, edge, dest) && lo <= hi <= |log|
    ensures Routed(cfg, shard, log, edge.1, dest, hi)
         == Routed(cfg, shard, log, edge.1, dest, lo) + Block(cfg, shard, log, Range(lo, hi), edge, dest)
  {
    hide OnlyFeeder, RoutesTo, ForwardOf, Routed, Block;
    if lo == hi {
      assert Range(lo, hi) == [];
      EmptyBlock(cfg, shard, log, edge, dest);
    } else {
      BlockIsRouted(cfg, shard, log, lo, hi - 1, edge, dest);
      BlockStep(cfg, shard, log, lo, hi, edge, dest);
    }
  }

  lemma EmptyBlock(cfg: Config, shard: nat, log: seq<Row>, edge: (nat, nat), dest: nat)
    ensures Block(cfg, shard, log, [], edge, dest) == []
  {
  }

  lemma BlockStep(cfg: Config, shard: nat, log: seq<Row>, lo: nat, hi: nat, edge: (nat, nat), dest: nat)
    requires OnlyFeeder(cfg, edge, dest) && lo < hi <= |log|
    requires Routed(cfg, shard, log, edge.1, dest, hi - 1)
          == Routed(cfg, shard, log, edge.1, dest, lo) + Block(cfg, shard, log, Range(lo, hi - 1), edge, dest)
    ensures Routed(cfg, shard, log, edge.1, dest, hi)
         == Routed(cfg, shard, log, edge.1, dest, lo) + Block(cfg, shard, log, Range(lo, hi), edge, dest)
  {
    hide Block, OnlyFeeder, ForwardOf, RoutesTo;
    var rows := Range(lo, hi - 1);
    BlockSnoc(cfg, shard, log, rows, hi, edge, dest);
    ConcatAssociates(Routed(cfg, shard, log, edge.1, dest, lo), Block(cfg, shard, log, rows, edge, dest),
      if RoutesTo(cfg, log[hi - 1], edge.1, dest) then [ForwardOf(cfg, shard, edge.1, hi, log[hi - 1])] else []);
    assert Range(lo, hi) == rows + [hi];
  }

  lemma ProjectSnoc(fs: seq<Forward>, f: Forward, o: Originator)
    ensures Project(fs + [f], o) == Project(fs, o) + if f.origin == o then [f] else []
  {
    assert (fs + [f])[..|fs|] == fs;
  }

  lemma PositiveSnoc(fs: seq<Forward>, f: Forward)
    requires Positive(fs) && f.sequence > 0
    ensures Positive(fs + [f])
  {
  }

  lemma {:induction false} BlockOrigins(cfg: Config, shard: nat, log: seq<Row>, rows: seq<nat>, edge: (nat, nat),
                                        dest: nat)
    requires Stored(log, rows)
    ensures var fs := Block(cfg, shard, log, rows, edge, dest);
            && Positive(fs)
            && Project(fs, Originator(edge.1, shard)) == fs
            && forall o :: o != Originator(edge.1, shard) ==> Project(fs, o) == []
  {
    if rows != [] {
      var n := |rows| - 1;
      BlockOrigins(cfg, shard, log, rows[..n], edge, dest);
      var fs, before := Block(cfg, shard, log, rows, edge, dest), Block(cfg, shard, log, rows[..n], edge, dest);
      if fs != before {
        var f := fs[|before|];
        assert fs == before + [f] && f.origin == Originator(edge.1, shard) && f.sequence > 0;
        hide *;
        forall o ensures Project(fs, o) == Project(before, o) + if f.origin == o then [f] else [] {
          ProjectSnoc(before, f, o);
        }
        PositiveSnoc(before, f);
      }
    }
  }

  lemma {:induction false} ProjectConcat(a: seq<Forward>, b: seq<Forward>, o: Originator)
    ensures Project(a + b, o) == Project(a, o) + Project(b, o)
  {
    if b == [] {
      assert a + b == a;
    } else {
      ProjectConcat(a, b[..|b| - 1], o);
      assert (a + b)[..|a + b| - 1] == a + b[..|b| - 1];
    }
  }

  lemma NoProject(o: Originator)
    ensures Project([], o) == []
  {
  }

  /** Other consumers have nothing for the table at this shard. */
  lemma {:induction false} OtherBlockEmpty(cfg: Config, shard: nat, log: seq<Row>, rows: seq<nat>, edge: (nat, nat),
                                           other: (nat, nat), dest: nat)
    requires OnlyFeeder(cfg, edge, dest) && Stored(log, rows) && other.1 == edge.1 && other != edge
    ensures Block(cfg, shard, log, rows, other, dest) == []
  {
    hide OnlyFeeder;
    if rows != [] {
      OtherBlockEmpty(cfg, shard, log, rows[..|rows| - 1], edge, other, dest);
      if RoutesTo(cfg, log[rows[|rows| - 1] - 1], edge.1, dest) {
        FeederOf(cfg, log[rows[|rows| - 1] - 1], edge, dest);
      }
    }
  }

  lemma FeederOf(cfg: Config, row: Row, edge: (nat, nat), dest: nat)
    requires OnlyFeeder(cfg, edge, dest) && RoutesTo(cfg, row, edge.1, dest)
    ensures row.consumer == edge.0
  {
  }

  /** Blocks of other tables and of other consumers contribute nothing to an originator. */
  lemma {:induction false} BlocksProject(cfg: Config, shard: nat, log: seq<Row>, rows: seq<nat>,
                                         blocks: seq<(nat, nat)>, edge: (nat, nat), dest: nat)
    requires Stored(log, rows) && OnlyFeeder(cfg, edge, dest)
    requires forall i, j :: 0 <= i < j < |blocks| ==> blocks[i] != blocks[j]
    ensures Positive(Blocks(cfg, shard, log, rows, blocks, dest))
    ensures Project(Blocks(cfg, shard, log, rows, blocks, dest), Originator(edge.1, shard))
         == if edge in blocks then Block(cfg, shard, log, rows, edge, dest) else []
  {
    hide Block, Project, OnlyFeeder;
    if blocks == [] {
      NoProject(Originator(edge.1, shard));
    } else {
      var n := |blocks| - 1;
      BlocksProject(cfg, shard, log, rows, blocks[..n], edge, dest);
      var front, last := Blocks(cfg, shard, log, rows, blocks[..n], dest),
        Block(cfg, shard, log, rows, blocks[n], dest);
      BlockOrigins(cfg, shard, log, rows, blocks[n], dest);
      ProjectConcat(front, last, Originator(edge.1, shard));
      assert edge in blocks <==> edge in blocks[..n] || edge == blocks[n];
      if blocks[n].1 == edge.1 && blocks[n] != edge {
        OtherBlockEmpty(cfg, shard, log, rows, edge, blocks[n], dest);
        NoProject(Originator(edge.1, shard));
      }
    }
  }

  /** For any iteration order, a message carries per originator exactly its routed rows, in order. */
  lemma MessageIsRouted(cfg: Config, shard: nat, log: seq<Row>, lo: nat, hi: nat, blocks: seq<(nat, nat)>, table: nat,
                        dest: nat)
    requires NeverMeet(cfg) && dest in cfg.shards && IsOrderOf(blocks, cfg.edges) && lo <= hi <= |log|
    ensures var fs := Blocks(cfg, shard, log, Range(lo, hi), blocks, dest);
            && Positive(fs)
            && Routed(cfg, shard, log, table, dest, hi)
               == Routed(cfg, shard, log, table, dest, lo) + Project(fs, Originator(table, shard))
  {
    hide Routed, Block, Blocks, Project;
    var edge := FeederFor(cfg, table, dest);
    BlocksProject(cfg, shard, log, Range(lo, hi), blocks, edge, dest);
    BlockIsRouted(cfg, shard, log, lo, hi, edge, dest);
    if edge !in cfg.edges {
      NoBlock(cfg, shard, log, Range(lo, hi), edge, dest);
    }
  }

  /** The one consumer with rows for the table at the shard, if there is any. */
  lemma FeederFor(cfg: Config, table: nat, dest: nat) returns (edge: (nat, nat))
    requires NeverMeet(cfg) && dest in cfg.shards
    ensures edge.1 == table && OnlyFeeder(cfg, edge, dest)
  {
    if row: Row :| RoutesTo(cfg, row, table, dest) {
      edge := (row.consumer, table);
    } else {
      edge := (0, table);
    }
  }

  lemma {:induction false} NoBlock(cfg: Config, shard: nat, log: seq<Row>, rows: seq<nat>, edge: (nat, nat), dest: nat)
    requires Stored(log, rows) && edge !in cfg.edges
    ensures Block(cfg, shard, log, rows, edge, dest) == []
  {
    if rows != [] {
      NoBlock(cfg, shard, log, rows[..|rows| - 1], edge, dest);
    }
  }

  // ---- Steps of the whole system ----------------------------------------------------------------------

  /** The receiver table in key order: the pending sequences up to k, ascending. */
  function Ascending(pending: set<nat>, k: nat): (r: seq<nat>)
    ensures forall i :: 0 <= i < |r| ==> 0 < r[i] <= k
  {
    if k == 0 then [] else Ascending(pending, k - 1) + if k in pending then [k] else []
  }

  /** The scheduler skips rows it has already processed through the initial load. */
  function DropProcessed(rows: seq<nat>, last: nat): (r: seq<nat>)
    ensures |r| <= |rows| && r == rows[|rows| - |r|..]
  {
    if rows != [] && rows[0] <= last then DropProcessed(rows[1..], last) else rows
  }

  /** The rows of the next batch: everything in the receiver table when the processor has just
      started, otherwise the first `n` queued rows. */
  function NextRows(sh: Shard, n: nat): seq<nat>
    requires sh.first || n <= |sh.queue|
  {
    if sh.first then Ascending(sh.pending, |sh.log|) else DropProcessed(sh.queue[..n], sh.lastProcessed)
  }

  datatype Step =
    | Produce(shard: nat, row: Row)
    | Begin(shard: nat, n: nat, blocks: seq<(nat, nat)>, known: set<nat>)
    | Deliver(message: Message)
    | Commit(shard: nat)
    | Fail(shard: nat)
    | Restart(shard: nat)

  predicate CanBegin(sh: Shard, n: nat) {
    && sh.batch.None? && !sh.failed && (sh.first || 0 < n <= |sh.queue|)
    && Stored(sh.log, NextRows(sh, n))
  }

  /** Some row of the batch is addressed to a consumer that is not loaded. */
  predicate HasUnknown(sh: Shard, rows: seq<nat>, known: set<nat>)
    requires Stored(sh.log, rows)
  {
    exists i :: 0 <= i < |rows| && sh.log[rows[i] - 1].consumer !in known
  }

  predicate Enabled(cfg: Config, st: System, step: Step) {
    match step
    case Produce(s, _) => s in st.shards
    case Begin(s, n, blocks, known) => s in st.shards && CanBegin(st.shards[s], n) && IsOrderOf(blocks, cfg.edges)
    case Deliver(m) => m in st.sent && m.dest in st.shards
    case Commit(s) => s in st.shards && st.shards[s].batch.Some? && st.shards[s].batch.value.messages <= st.applied
    case Fail(s) => s in st.shards
    case Restart(s) => s in st.shards
  }

  /** The shard once its scheduler has taken the rows of the next batch. */
  function Taken(sh: Shard, n: nat): Shard
    requires sh.first || n <= |sh.queue|
  {
    if sh.first then sh.(first := false) else sh.(queue := sh.queue[n..])
  }

  function Update(st: System, s: nat, sh: Shard): System {
    st.(shards := st.shards[s := sh])
  }

  /** HandleBatch up to the point where the forwards have been sent. A batch with an unknown consumer
      is given up without an error: nothing is sent or committed, and the scheduler moves on. */
  function DoBegin(cfg: Config, st: System, s: nat, n: nat, blocks: seq<(nat, nat)>, known: set<nat>): System
    requires s in st.shards && CanBegin(st.shards[s], n)
  {
    var sh := st.shards[s];
    var rows := NextRows(sh, n);
    if rows == [] then Update(st, s, Taken(sh, n))
    else if HasUnknown(sh, rows, known) then Update(st, s, Taken(sh, n).(lastProcessed := rows[|rows| - 1]))
    else
      var ms := Messages(cfg, s, sh.log, rows, blocks);
      Update(st, s, Taken(sh, n).(batch := Some(Batch(rows, ms)))).(sent := st.sent + ms)
  }

  function Reach(st: System, s: nat, d: nat): nat {
    if (s, d) in st.reach then st.reach[(s, d)] else 0
  }

  function Max(a: nat, b: nat): nat { if a < b then b else a }

  /** The last sequence of the batch a message was made from. */
  function High(m: Message): nat { if m.rows == [] then 0 else m.rows[|m.rows| - 1] }

  function DoDeliver(st: System, m: Message): System
    requires m.dest in st.shards
  {
    Update(st, m.dest, ReceiveAll(st.shards[m.dest], m.forwards))
    .(applied := st.applied + {m},
      reach := st.reach[(m.source, m.dest) := Max(Reach(st, m.source, m.dest), High(m))])
  }

  function DoCommit(sh: Shard): Shard
    requires sh.batch.Some?
  {
    var rows := sh.batch.value.rows;
    sh.(effects := sh.effects + rows, pending := sh.pending - (set i | i in rows),
        lastProcessed := if rows == [] then sh.lastProcessed else rows[|rows| - 1], batch := None)
  }

  function Next(cfg: Config, st: System, step: Step): System
    requires Enabled(cfg, st, step)
  {
    match step
    case Produce(s, row) => Update(st, s, Append(st.shards[s], row))
    case Begin(s, n, blocks, known) => DoBegin(cfg, st, s, n, blocks, known)
    case Deliver(m) => DoDeliver(st, m)
    case Commit(s) => Update(st, s, DoCommit(st.shards[s]))
    case Fail(s) => Update(st, s, st.shards[s].(batch := None, failed := true))
    case Restart(s) => Update(st, s,
      st.shards[s].(batch := None, failed := false, queue := [], first := true, lastProcessed := 0))
  }

  /** Rows that enter the receiver table are queued in order as long as the processor runs, and not while it has failed;
      a restart forgets the queue and starts from what is in the table. */
  lemma QueueFollows(cfg: Config, st: System, step: Step, s: nat)
    requires Enabled(cfg, st, step) && s in st.shards && !(step.Begin? && step.shard == s)
    ensures var (sh, sh') := (st.shards[s], Next(cfg, st, step).shards[s]);
            && |sh.log| <= |sh'.log|
            && (step == Restart(s) ==> sh'.queue == [] && sh'.first && !sh'.failed && sh'.pending == sh.pending)
            && (step != Restart(s) ==>
                  && sh'.queue == sh.queue + (if sh.failed then [] else Range(|sh.log|, |sh'.log|))
                  && sh'.failed == (sh.failed || step == Fail(s)))
  {
    if step.Deliver? {
      ReceiveAllQueues(st.shards[step.message.dest], step.message.forwards);
    } else {
      assert st.shards[s].queue + [] == st.shards[s].queue;
    }
  }

  lemma {:induction false} ReceiveAllQueues(sh: Shard, fs: seq<Forward>)
    ensures var sh' := ReceiveAll(sh, fs);
            && |sh.log| <= |sh'.log| && sh'.failed == sh.failed
            && sh'.queue == sh.queue + (if sh.failed then [] else Range(|sh.log|, |sh'.log|))
  {
    if fs != [] {
      ReceiveAllQueues(sh, fs[..|fs| - 1]);
    } else {
      assert Range(|sh.log|, |sh.log|) == [];
    }
  }

  const FRESH: Shard := Shard([], map[], map[], {}, [], [], 0, true, false, None)

  function Initial(cfg: Config): System {
    System(map s | s in cfg.shards :: FRESH, {}, {}, map[])
  }

  /** The state after a sequence of steps, if each was possible when it was taken. */
  function Run(cfg: Config, steps: seq<Step>): Option<System> {
    if steps == [] then Some(Initial(cfg))
    else
      var before := Run(cfg, steps[..|steps| - 1]);
      if before.Some? && Enabled(cfg, before.value, steps[|steps| - 1])
      then Some(Next(cfg, before.value, steps[|steps| - 1])) else None
  }

  /** The step gives up a batch because of an unknown consumer. */
  predicate Skips(st: System, step: Step) {
    && step.Begin? && step.shard in st.shards && CanBegin(st.shards[step.shard], step.n)
    && HasUnknown(st.shards[step.shard], NextRows(st.shards[step.shard], step.n), step.known)
  }

  // ---- The invariant of runs that give up no batch ------------------------------------------------------

  /** Rows are committed in order, one by one; what is neither committed nor in the running batch is
      still queued or will be loaded from the receiver table. */
  predicate Progress(sh: Shard) {
    var c, n, q := |sh.effects|, |sh.log|, |sh.queue|;
    && c <= n && sh.effects == Range(0, c)
    && (forall i :: i in sh.pending ==> c < i <= n)
    && (forall i :: c < i <= n ==> i in sh.pending)
    && sh.lastProcessed <= c
    && (sh.batch.Some? ==>
          var rows := sh.batch.value.rows;
          rows != [] && c + |rows| <= n && rows == Range(c, c + |rows|))
    && (!sh.failed ==> q <= n && sh.queue == Range(n - q, n))
    && (!sh.failed && sh.first ==> sh.batch.None? && c <= n - q)
    && (!sh.failed && !sh.first && sh.batch.None? ==> Max(n - q, sh.lastProcessed) == c)
    && (!sh.failed && sh.batch.Some? ==> n - q <= c + |sh.batch.value.rows|)
  }

  ghost predicate Orderly(sh: Shard) {
    DedupMatches(sh) && Progress(sh)
  }

  /** A message carries, per originator, the rows its batch owes the destination; its batch started at
      a row that had been committed before. */
  ghost predicate Faithful(cfg: Config, st: System, m: Message) {
    && m.source in st.shards && m.dest in st.shards && m.rows != [] && m.rows[0] > 0 && Positive(m.forwards)
    && var log := st.shards[m.source].log;
       var lo, hi := m.rows[0] - 1, m.rows[0] - 1 + |m.rows|;
       && m.rows == Range(lo, hi)
       && lo <= |st.shards[m.source].effects| && hi <= |log|
       && (forall o: Originator :: o.shard != m.source ==> Project(m.forwards, o) == [])
       && (forall t :: Routed(cfg, m.source, log, t, m.dest, hi)
                    == Routed(cfg, m.source, log, t, m.dest, lo) + Project(m.forwards, Originator(t, m.source)))
  }

  /** Every destination the running batch owes a row has a message in it. */
  ghost predicate Covers(cfg: Config, st: System, s: nat)
    requires s in st.shards && Orderly(st.shards[s])
  {
    var sh := st.shards[s];
    sh.batch.Some? ==>
      var b := sh.batch.value;
      var c := |sh.effects|;
      && b.messages <= st.sent
      && (forall m :: m in b.messages ==> m.source == s && m.rows == b.rows)
      && forall d, t :: d in st.shards ==>
           (exists m :: m in b.messages && m.dest == d)
           || Routed(cfg, s, sh.log, t, d, c + |b.rows|) == Routed(cfg, s, sh.log, t, d, c)
  }

  /** What `d` has accepted from table `t` of shard `s` is exactly the list of rows `s` owes it, in
      order and once each, up to a sequence that covers everything `s` has committed. */
  ghost predicate Exact(cfg: Config, st: System, s: nat, d: nat, t: nat)
    requires s in st.shards && d in st.shards
  {
    var k := Max(|st.shards[s].effects|, Reach(st, s, d));
    && k <= |st.shards[s].log|
    && AcceptedFrom(st.shards[d], Originator(t, s)) == Routed(cfg, s, st.shards[s].log, t, d, k)
  }

  ghost predicate Inv(cfg: Config, st: System) {
    && st.shards.Keys == cfg.shards
    && (forall s :: s in st.shards ==> Orderly(st.shards[s]))
    && (forall m :: m in st.sent ==> Faithful(cfg, st, m))
    && st.applied <= st.sent
    && (forall m :: m in st.applied ==> High(m) <= Reach(st, m.source, m.dest))
    && (forall s :: s in st.shards ==> Covers(cfg, st, s))
    && (forall s, d, t :: s in st.shards && d in st.shards ==> Exact(cfg, st, s, d, t))
  }

  lemma InitialInv(cfg: Config)
    ensures Inv(cfg, Initial(cfg))
  {
  }

  // ---- Preservation -----------------------------------------------------------------------------------

  lemma {:induction false} RoutedPrefix(cfg: Config, s: nat, log: seq<Row>, more: seq<Row>, t: nat, d: nat, k: nat)
    requires log <= more && k <= |log|
    ensures Routed(cfg, s, log, t, d, k) == Routed(cfg, s, more, t, d, k)
  {
    if k > 0 {
      RoutedPrefix(cfg, s, log, more, t, d, k - 1);
    }
  }

  lemma RangeSnoc(lo: nat, hi: nat)
    requires lo <= hi
    ensures Range(lo, hi + 1) == Range(lo, hi) + [hi + 1]
  {
  }

  lemma AppendProgress(sh: Shard, row: Row)
    requires Progress(sh)
    ensures Progress(Append(sh, row))
  {
    hide Range;
    var n, q := |sh.log|, |sh.queue|;
    if q <= n {
      RangeSnoc(n - q, n);
    }
  }

  /** Receiving only adds rows at the end of the receiver table. */
  ghost predicate OnlyReceives(sh: Shard, sh': Shard) {
    sh.log <= sh'.log && sh'.effects == sh.effects && sh'.batch == sh.batch
  }

  lemma {:induction false} ReceiveAllOrderly(sh: Shard, fs: seq<Forward>)
    requires Orderly(sh) && Positive(fs)
    ensures Orderly(ReceiveAll(sh, fs)) && OnlyReceives(sh, ReceiveAll(sh, fs))
  {
    hide Orderly, DedupMatches;
    if fs != [] {
      var n := |fs| - 1;
      ReceiveAllOrderly(sh, fs[..n]);
      ReceiveOrderly(ReceiveAll(sh, fs[..n]), fs[n]);
    }
  }

  lemma ReceiveOrderly(sh: Shard, f: Forward)
    requires Orderly(sh) && f.sequence > 0
    ensures Orderly(Receive(sh, f)) && OnlyReceives(sh, Receive(sh, f))
  {
    hide DedupMatches, AcceptedFrom;
    ReceiveKeepsDedup(sh, f);
    if !IsDuplicate(sh.dedup, f) {
      AppendProgress(sh.(dedup := sh.dedup[f.origin := f.sequence],
                         accepted := sh.accepted[f.origin := AcceptedFrom(sh, f.origin) + [f]]), f.row);
    }
  }

  /** A message stays faithful while logs and commits grow. */
  lemma FaithfulGrows(cfg: Config, st: System, st': System, m: Message)
    requires Faithful(cfg, st, m)
    requires st'.shards.Keys == st.shards.Keys
    requires forall s :: s in st.shards ==>
      st.shards[s].log <= st'.shards[s].log && |st.shards[s].effects| <= |st'.shards[s].effects|
    ensures Faithful(cfg, st', m)
  {
    var log, log' := st.shards[m.source].log, st'.shards[m.source].log;
    var lo, hi := m.rows[0] - 1, m.rows[0] - 1 + |m.rows|;
    forall t
      ensures Routed(cfg, m.source, log', t, m.dest, hi)
           == Routed(cfg, m.source, log', t, m.dest, lo) + Project(m.forwards, Originator(t, m.source))
    {
      RoutedPrefix(cfg, m.source, log, log', t, m.dest, hi);
      RoutedPrefix(cfg, m.source, log, log', t, m.dest, lo);
    }
  }

  lemma CoversGrows(cfg: Config, st: System, st': System, s: nat)
    requires s in st.shards && Orderly(st.shards[s]) && Covers(cfg, st, s)
    requires st'.shards.Keys == st.shards.Keys && Orderly(st'.shards[s]) && st.sent <= st'.sent
    requires st.shards[s].log <= st'.shards[s].log && st'.shards[s].effects == st.shards[s].effects
    requires st'.shards[s].batch == st.shards[s].batch || st'.shards[s].batch.None?
    ensures Covers(cfg, st', s)
  {
    var sh, sh' := st.shards[s], st'.shards[s];
    if sh'.batch.Some? {
      var c, b := |sh.effects|, sh.batch.value;
      forall d, t | d in st'.shards
        ensures (exists m :: m in b.messages && m.dest == d)
             || Routed(cfg, s, sh'.log, t, d, c + |b.rows|) == Routed(cfg, s, sh'.log, t, d, c)
      {
        RoutedPrefix(cfg, s, sh.log, sh'.log, t, d, c + |b.rows|);
        RoutedPrefix(cfg, s, sh.log, sh'.log, t, d, c);
      }
    }
  }

  /** Steps that touch one shard without committing or accepting anything. */
  lemma Frame(cfg: Config, st: System, x: nat, sh: Shard)
    requires Inv(cfg, st) && x in st.shards && Orderly(sh)
    requires st.shards[x].log <= sh.log && sh.effects == st.shards[x].effects && sh.accepted == st.shards[x].accepted
    requires sh.batch == st.shards[x].batch || sh.batch.None?
    ensures Inv(cfg, Update(st, x, sh))
  {
    hide Orderly, Faithful, Covers;
    var st' := Update(st, x, sh);
    forall m | m in st'.sent ensures Faithful(cfg, st', m) {
      FaithfulGrows(cfg, st, st', m);
    }
    forall s | s in st'.shards ensures Covers(cfg, st', s) {
      CoversGrows(cfg, st, st', s);
    }
    forall s, d, t | s in st'.shards && d in st'.shards ensures Exact(cfg, st', s, d, t) {
      assert Exact(cfg, st, s, d, t);
      RoutedPrefix(cfg, s, st.shards[s].log, st'.shards[s].log, t, d, Max(|st.shards[s].effects|, Reach(st, s, d)));
    }
  }

  // Beginning a batch

  lemma {:induction false} AscendingRange(pending: set<nat>, c: nat, k: nat)
    requires forall i :: i in pending ==> c < i
    requires forall i :: c < i <= k ==> i in pending
    ensures Ascending(pending, k) == Range(c, k)
  {
    if k > 0 {
      AscendingRange(pending, c, k - 1);
    }
  }

  lemma {:induction false} DropRange(q: nat, h: nat, last: nat)
    requires q <= h
    ensures DropProcessed(Range(q, h), last) == Range(if last < q then q else if last < h then last else h, h)
    decreases h - q
  {
    if q < h && q + 1 <= last {
      assert Range(q, h)[1..] == Range(q + 1, h);
      DropRange(q + 1, h, last);
    }
  }

  lemma RangeSplit(lo: nat, n: nat, k: nat)
    requires n <= k
    ensures Range(lo, lo + k)[..n] == Range(lo, lo + n) && Range(lo, lo + k)[n..] == Range(lo + n, lo + k)
  {
  }

  /** Taking n rows off a queue of consecutive sequences. */
  lemma QueuedRows(lo: nat, k: nat, n: nat, last: nat)
    requires n <= k
    ensures DropProcessed(Range(lo, lo + k)[..n], last) == Range(Max(lo, last), lo + n)
    ensures Range(lo, lo + k)[n..] == Range(lo + n, lo + k)
  {
    hide Range, DropProcessed, Max;
    RangeSplit(lo, n, k);
    DropFromRange(lo, lo + n, last);
  }

  lemma DropFromRange(lo: nat, hi: nat, last: nat)
    requires lo <= hi
    ensures DropProcessed(Range(lo, hi), last) == Range(Max(lo, last), hi)
  {
    DropRange(lo, hi, last);
  }

  lemma RangeLength(lo: nat, hi: nat)
    ensures Range(lo, hi) == Range(lo, lo + |Range(lo, hi)|)
  {
  }

  /** The rows of the next batch in terms of the queue. */
  lemma NextRowsAre(sh: Shard, n: nat)
    requires Progress(sh) && sh.batch.None? && !sh.failed && (sh.first || 0 < n <= |sh.queue|)
    ensures NextRows(sh, n) == Range(|sh.effects|, if sh.first then |sh.log| else |sh.log| - |sh.queue| + n)
    ensures !sh.first ==> sh.queue[n..] == Range(|sh.log| - |sh.queue| + n, |sh.log|)
  {
    hide Range, Ascending, DropProcessed;
    if sh.first {
      AscendingRange(sh.pending, |sh.effects|, |sh.log|);
    } else {
      QueuedRows(|sh.log| - |sh.queue|, |sh.queue|, n, sh.lastProcessed);
    }
  }

  /** The next batch is the rows right after the committed ones. */
  lemma NextRowsFollow(sh: Shard, n: nat)
    requires Progress(sh) && sh.batch.None? && !sh.failed && (sh.first || 0 < n <= |sh.queue|)
    ensures var rows, c := NextRows(sh, n), |sh.effects|;
            c + |rows| <= |sh.log| && rows == Range(c, c + |rows|)
  {
    hide Range, NextRows, Progress;
    NextRowsAre(sh, n);
    CommittedWithin(sh);
    RangeLength(|sh.effects|, if sh.first then |sh.log| else |sh.log| - |sh.queue| + n);
  }

  lemma CommittedWithin(sh: Shard)
    requires Progress(sh)
    ensures |sh.effects| <= |sh.log| && (!sh.failed ==> |sh.queue| <= |sh.log|)
  {
  }

  lemma TakenProgress(sh: Shard, n: nat, ms: set<Message>)
    requires Progress(sh) && sh.batch.None? && !sh.failed && (sh.first || 0 < n <= |sh.queue|)
    ensures var rows := NextRows(sh, n);
            Progress(if rows == [] then Taken(sh, n) else Taken(sh, n).(batch := Some(Batch(rows, ms))))
  {
    hide Range, NextRows;
    NextRowsFollow(sh, n);
    NextRowsAre(sh, n);
  }

  lemma TakenDedup(sh: Shard, n: nat, b: Batch)
    requires DedupMatches(sh) && (sh.first || n <= |sh.queue|)
    ensures DedupMatches(Taken(sh, n)) && DedupMatches(Taken(sh, n).(batch := Some(b)))
  {
    assert forall o :: AcceptedFrom(Taken(sh, n), o) == AcceptedFrom(sh, o);
    assert forall o :: AcceptedFrom(Taken(sh, n).(batch := Some(b)), o) == AcceptedFrom(sh, o);
  }

  /** Launching a batch keeps the invariant once its messages are known to carry what it owes. */
  lemma LaunchInv(cfg: Config, st: System, s: nat, sh: Shard, ms: set<Message>)
    requires Inv(cfg, st) && s in st.shards && Orderly(sh)
    requires sh.log == st.shards[s].log && sh.effects == st.shards[s].effects && sh.accepted == st.shards[s].accepted
    requires var st' := Update(st, s, sh).(sent := st.sent + ms);
             Covers(cfg, st', s) && forall m :: m in ms ==> Faithful(cfg, st', m)
    ensures Inv(cfg, Update(st, s, sh).(sent := st.sent + ms))
  {
    hide Orderly, Faithful, Covers;
    var st' := Update(st, s, sh).(sent := st.sent + ms);
    forall m | m in st'.sent ensures Faithful(cfg, st', m) {
      if m in st.sent {
        FaithfulGrows(cfg, st, st', m);
      }
    }
    forall x | x in st'.shards ensures Covers(cfg, st', x) {
      if x != s {
        CoversGrows(cfg, st, st', x);
      }
    }
    forall x, d, t | x in st'.shards && d in st'.shards ensures Exact(cfg, st', x, d, t) {
      assert Exact(cfg, st, x, d, t);
    }
  }

  /** A message built from the rows right after the committed ones is faithful. */
  lemma BuiltFaithful(cfg: Config, st: System, s: nat, r: nat, blocks: seq<(nat, nat)>, d: nat)
    requires NeverMeet(cfg) && IsOrderOf(blocks, cfg.edges)
    requires s in st.shards && d in st.shards && d in cfg.shards && r > 0
    requires |st.shards[s].effects| + r <= |st.shards[s].log|
    ensures var c := |st.shards[s].effects|;
            Faithful(cfg, st, Message(s, d, Range(c, c + r),
              Blocks(cfg, s, st.shards[s].log, Range(c, c + r), blocks, d)))
  {
    hide Blocks, Routed, Project, IsOrderOf, NeverMeet, Range;
    var c, log := |st.shards[s].effects|, st.shards[s].log;
    var m := Message(s, d, Range(c, c + r), Blocks(cfg, s, log, Range(c, c + r), blocks, d));
    ForeignEmpty(cfg, s, log, m.rows, blocks, d);
    forall t
      ensures Routed(cfg, s, log, t, d, c + r) == Routed(cfg, s, log, t, d, c) + Project(m.forwards, Originator(t, s))
    {
      MessageIsRouted(cfg, s, log, c, c + r, blocks, t, d);
    }
  }

  /** A destination without a message is owed nothing by the batch. */
  lemma OwedNothing(cfg: Config, s: nat, log: seq<Row>, c: nat, r: nat, blocks: seq<(nat, nat)>, t: nat, d: nat)
    requires NeverMeet(cfg) && d in cfg.shards && IsOrderOf(blocks, cfg.edges) && c + r <= |log|
    requires Blocks(cfg, s, log, Range(c, c + r), blocks, d) == []
    ensures Routed(cfg, s, log, t, d, c + r) == Routed(cfg, s, log, t, d, c)
  {
    hide Blocks, Routed, IsOrderOf, NeverMeet, Range;
    MessageIsRouted(cfg, s, log, c, c + r, blocks, t, d);
  }

  lemma BatchCovers(cfg: Config, st: System, s: nat, blocks: seq<(nat, nat)>)
    requires NeverMeet(cfg) && IsOrderOf(blocks, cfg.edges) && st.shards.Keys == cfg.shards
    requires s in st.shards && Orderly(st.shards[s]) && st.shards[s].batch.Some?
    requires st.shards[s].batch.value.messages
      == Messages(cfg, s, st.shards[s].log, st.shards[s].batch.value.rows, blocks)
    requires st.shards[s].batch.value.messages <= st.sent
    ensures Covers(cfg, st, s)
    ensures forall m :: m in st.shards[s].batch.value.messages ==> Faithful(cfg, st, m)
  {
    hide DedupMatches, IsOrderOf, NeverMeet, Blocks, Routed, Faithful, Range;
    var sh := st.shards[s];
    var rows, ms, c := sh.batch.value.rows, sh.batch.value.messages, |sh.effects|;
    forall d, t | d in st.shards
      ensures (exists m :: m in ms && m.dest == d)
           || Routed(cfg, s, sh.log, t, d, c + |rows|) == Routed(cfg, s, sh.log, t, d, c)
    {
      var fs := Blocks(cfg, s, sh.log, rows, blocks, d);
      if fs == [] {
        OwedNothing(cfg, s, sh.log, c, |rows|, blocks, t, d);
      } else {
        assert Message(s, d, rows, fs) in ms;
      }
    }
    forall m | m in ms ensures Faithful(cfg, st, m) {
      BuiltFaithful(cfg, st, s, |rows|, blocks, m.dest);
    }
  }

  lemma BeginInv(cfg: Config, st: System, s: nat, n: nat, blocks: seq<(nat, nat)>, known: set<nat>)
    requires NeverMeet(cfg) && Inv(cfg, st)
    requires s in st.shards && CanBegin(st.shards[s], n) && IsOrderOf(blocks, cfg.edges)
    requires !HasUnknown(st.shards[s], NextRows(st.shards[s], n), known)
    ensures Inv(cfg, DoBegin(cfg, st, s, n, blocks, known))
  {
    hide Progress, DedupMatches, Faithful, Exact, Covers, IsOrderOf, NeverMeet, NextRows, Messages;
    var sh := st.shards[s];
    var rows := NextRows(sh, n);
    var ms := Messages(cfg, s, sh.log, rows, blocks);
    TakenProgress(sh, n, ms);
    TakenDedup(sh, n, Batch(rows, ms));
    if rows == [] {
      Frame(cfg, st, s, Taken(sh, n));
    } else {
      var sh' := Taken(sh, n).(batch := Some(Batch(rows, ms)));
      BatchCovers(cfg, Update(st, s, sh').(sent := st.sent + ms), s, blocks);
      LaunchInv(cfg, st, s, sh', ms);
    }
  }

  lemma {:induction false} ForeignEmpty(cfg: Config, s: nat, log: seq<Row>, rows: seq<nat>, blocks: seq<(nat, nat)>,
                                        d: nat)
    requires Stored(log, rows)
    ensures Positive(Blocks(cfg, s, log, rows, blocks, d))
    ensures forall o: Originator :: o.shard != s ==> Project(Blocks(cfg, s, log, rows, blocks, d), o) == []
  {
    if blocks != [] {
      var n := |blocks| - 1;
      ForeignEmpty(cfg, s, log, rows, blocks[..n], d);
      BlockOrigins(cfg, s, log, rows, blocks[n], d);
      forall o: Originator | o.shard != s ensures Project(Blocks(cfg, s, log, rows, blocks, d), o) == [] {
        ProjectConcat(Blocks(cfg, s, log, rows, blocks[..n], d), Block(cfg, s, log, rows, blocks[n], d), o);
      }
    }
  }

  // Delivering a message, possibly again

  lemma {:induction false} RoutedGrows(cfg: Config, s: nat, log: seq<Row>, t: nat, d: nat, j: nat, k: nat)
    requires j <= k <= |log|
    ensures Routed(cfg, s, log, t, d, j) <= Routed(cfg, s, log, t, d, k)
  {
    if j < k {
      RoutedGrows(cfg, s, log, t, d, j, k - 1);
    }
  }

  /** The last routed sequence up to k is at most k, and at least every routed sequence. */
  lemma {:induction false} RoutedHighest(cfg: Config, s: nat, log: seq<Row>, t: nat, d: nat, k: nat, i: nat)
    requires k <= |log|
    ensures HighestOf(0, Routed(cfg, s, log, t, d, k)) <= k
    ensures 0 < i <= k && RoutesTo(cfg, log[i - 1], t, d) ==> i <= HighestOf(0, Routed(cfg, s, log, t, d, k))
  {
    hide RoutesTo;
    if k > 0 {
      RoutedHighest(cfg, s, log, t, d, k - 1, i);
    }
  }

  /** The rows due between two sequences. */
  function Segment(cfg: Config, s: nat, log: seq<Row>, t: nat, d: nat, lo: nat, hi: nat): seq<Forward>
    requires lo <= hi <= |log|
  {
    if lo == hi then []
    else
      Segment(cfg, s, log, t, d, lo, hi - 1)
      + if RoutesTo(cfg, log[hi - 1], t, d) then [ForwardOf(cfg, s, t, hi, log[hi - 1])] else []
  }

  lemma {:induction false} SegmentCompletes(cfg: Config, s: nat, log: seq<Row>, t: nat, d: nat, lo: nat, hi: nat)
    requires lo <= hi <= |log|
    ensures Routed(cfg, s, log, t, d, hi) == Routed(cfg, s, log, t, d, lo) + Segment(cfg, s, log, t, d, lo, hi)
  {
    hide RoutesTo;
    if lo < hi {
      SegmentCompletes(cfg, s, log, t, d, lo, hi - 1);
      ConcatAssociates(Routed(cfg, s, log, t, d, lo), Segment(cfg, s, log, t, d, lo, hi - 1),
        if RoutesTo(cfg, log[hi - 1], t, d) then [ForwardOf(cfg, s, t, hi, log[hi - 1])] else []);
    }
  }

  /** Resending any stretch that starts within what has been accepted adds exactly what is missing. */
  lemma {:induction false} ResendCompletes(cfg: Config, s: nat, log: seq<Row>, t: nat, d: nat, k: nat, lo: nat, hi: nat)
    requires lo <= k <= |log| && lo <= hi <= |log|
    ensures var have := Routed(cfg, s, log, t, d, k);
            have + Records(HighestOf(0, have), Segment(cfg, s, log, t, d, lo, hi))
              == Routed(cfg, s, log, t, d, Max(k, hi))
    decreases hi
  {
    var have := Routed(cfg, s, log, t, d, k);
    if lo == hi {
      assert have + [] == have;
    } else {
      ResendCompletes(cfg, s, log, t, d, k, lo, hi - 1);
      ResendStep(cfg, s, log, t, d, k, lo, hi);
    }
  }

  lemma ResendStep(cfg: Config, s: nat, log: seq<Row>, t: nat, d: nat, k: nat, lo: nat, hi: nat)
    requires lo <= k <= |log| && lo < hi <= |log|
    requires var have := Routed(cfg, s, log, t, d, k);
             have + Records(HighestOf(0, have), Segment(cfg, s, log, t, d, lo, hi - 1))
               == Routed(cfg, s, log, t, d, Max(k, hi - 1))
    ensures var have := Routed(cfg, s, log, t, d, k);
            have + Records(HighestOf(0, have), Segment(cfg, s, log, t, d, lo, hi))
              == Routed(cfg, s, log, t, d, Max(k, hi))
  {
    hide RoutesTo, Records;
    var have := Routed(cfg, s, log, t, d, k);
    var seg, last := Segment(cfg, s, log, t, d, lo, hi - 1), HighestOf(0, have);
    var missing := Records(last, seg);
    RoutedHighest(cfg, s, log, t, d, Max(k, hi - 1), hi);
    assert HighestOf(0, have + missing) == HighestOf(last, missing);
    if RoutesTo(cfg, log[hi - 1], t, d) {
      var f := ForwardOf(cfg, s, t, hi, log[hi - 1]);
      RecordsSnoc(last, seg, f);
      ConcatAssociates(have, missing, [f]);
      assert Segment(cfg, s, log, t, d, lo, hi) == seg + [f];
    } else {
      assert Segment(cfg, s, log, t, d, lo, hi) == seg;
    }
  }

  lemma DeliverExact(cfg: Config, st: System, m: Message, t: nat)
    requires Inv(cfg, st) && m in st.sent
    ensures Exact(cfg, DoDeliver(st, m), m.source, m.dest, t)
  {
    hide Progress, Routed, Segment, Records, ReceiveAll, Project, Covers;
    assert Faithful(cfg, st, m) && Exact(cfg, st, m.source, m.dest, t);
    var s, d, o := m.source, m.dest, Originator(t, m.source);
    var log := st.shards[s].log;
    var lo, hi := m.rows[0] - 1, m.rows[0] - 1 + |m.rows|;
    var k := Max(|st.shards[s].effects|, Reach(st, s, d));
    SegmentCompletes(cfg, s, log, t, d, lo, hi);
    assert Project(m.forwards, o) == Segment(cfg, s, log, t, d, lo, hi) by {
      Cancel(Routed(cfg, s, log, t, d, lo), Project(m.forwards, o), Segment(cfg, s, log, t, d, lo, hi));
    }
    ReceiveAllRecords(st.shards[d], m.forwards, o);
    LastIsHighest(st.shards[d], o);
    ResendCompletes(cfg, s, log, t, d, k, lo, hi);
    ReceiveAllOrderly(st.shards[d], m.forwards);
    var log' := DoDeliver(st, m).shards[s].log;
    RoutedPrefix(cfg, s, log, log', t, d, Max(k, hi));
  }

  lemma Cancel(a: seq<Forward>, b: seq<Forward>, c: seq<Forward>)
    requires a + b == a + c
    ensures b == c
  {
    assert b == (a + b)[|a|..] && c == (a + c)[|a|..];
  }

  lemma DeliverInv(cfg: Config, st: System, m: Message)
    requires Inv(cfg, st) && m in st.sent
    ensures m.dest in st.shards && Inv(cfg, DoDeliver(st, m))
  {
    hide Progress, DedupMatches, Covers, Routed, ReceiveAll, Project;
    assert Faithful(cfg, st, m);
    var st' := DoDeliver(st, m);
    var d := m.dest;
    ReceiveAllOrderly(st.shards[d], m.forwards);
    forall x | x in st'.sent ensures Faithful(cfg, st', x) {
      FaithfulGrows(cfg, st, st', x);
    }
    forall x | x in st'.shards ensures Covers(cfg, st', x) {
      CoversGrows(cfg, st, st', x);
    }
    forall x, y, t | x in st'.shards && y in st'.shards ensures Exact(cfg, st', x, y, t) {
      assert Exact(cfg, st, x, y, t);
      if x == m.source && y == d {
        DeliverExact(cfg, st, m, t);
      } else {
        if y == d {
          ReceiveAllRecords(st.shards[d], m.forwards, Originator(t, x));
          NoRecords(LastSequence(st.shards[d], Originator(t, x)));
        }
        RoutedPrefix(cfg, x, st.shards[x].log, st'.shards[x].log, t, y, Max(|st.shards[x].effects|, Reach(st, x, y)));
      }
    }
  }

  // Committing a batch

  lemma CommitOrderly(sh: Shard)
    requires Orderly(sh) && sh.batch.Some?
    ensures Orderly(DoCommit(sh))
    ensures |DoCommit(sh).effects| == |sh.effects| + |sh.batch.value.rows|
  {
    hide DedupMatches, Range;
    var c, rows := |sh.effects|, sh.batch.value.rows;
    assert DedupMatches(DoCommit(sh)) by { CommitDedup(sh); }
    assert Range(0, c) + Range(c, c + |rows|) == Range(0, c + |rows|);
    forall i | c < i <= c + |rows| ensures i in rows {
      assert rows[i - c - 1] == i;
    }
  }

  lemma CommitDedup(sh: Shard)
    requires DedupMatches(sh) && sh.batch.Some?
    ensures DedupMatches(DoCommit(sh))
  {
    assert forall o :: AcceptedFrom(DoCommit(sh), o) == AcceptedFrom(sh, o);
  }

  /** Nothing is owed between what is committed now and what will be, or a delivered message covers it. */
  lemma CommitReaches(cfg: Config, st: System, s: nat, d: nat, t: nat)
    requires s in st.shards && d in st.shards && Orderly(st.shards[s]) && Covers(cfg, st, s)
    requires st.shards[s].batch.Some? && st.shards[s].batch.value.messages <= st.applied
    requires forall m :: m in st.applied ==> High(m) <= Reach(st, m.source, m.dest)
    ensures var (c, r) := (|st.shards[s].effects|, |st.shards[s].batch.value.rows|);
            c + r <= |st.shards[s].log|
            && (c + r <= Reach(st, s, d)
                || Routed(cfg, s, st.shards[s].log, t, d, c + r) == Routed(cfg, s, st.shards[s].log, t, d, c))
  {
    hide Routed, DedupMatches;
    var sh := st.shards[s];
    var c, b := |sh.effects|, sh.batch.value;
    if m :| m in b.messages && m.dest == d {
      assert m in st.applied;
    }
  }

  lemma CommitExact(cfg: Config, st: System, s: nat, d: nat, t: nat)
    requires Inv(cfg, st) && s in st.shards && d in st.shards
    requires st.shards[s].batch.Some? && st.shards[s].batch.value.messages <= st.applied
    ensures Exact(cfg, Update(st, s, DoCommit(st.shards[s])), s, d, t)
  {
    hide Routed, Orderly, Faithful, Covers;
    var sh := st.shards[s];
    var c, r := |sh.effects|, |sh.batch.value.rows|;
    assert Exact(cfg, st, s, d, t);
    CommitOrderly(sh);
    CommitReaches(cfg, st, s, d, t);
    var k, k' := Max(c, Reach(st, s, d)), Max(c + r, Reach(st, s, d));
    if k < k' {
      RoutedGrows(cfg, s, sh.log, t, d, c, k);
      RoutedGrows(cfg, s, sh.log, t, d, k, k');
    }
  }

  lemma CommitInv(cfg: Config, st: System, s: nat)
    requires Inv(cfg, st) && s in st.shards
    requires st.shards[s].batch.Some? && st.shards[s].batch.value.messages <= st.applied
    ensures Inv(cfg, Update(st, s, DoCommit(st.shards[s])))
  {
    hide Progress, DedupMatches, Routed, Faithful;
    var st' := Update(st, s, DoCommit(st.shards[s]));
    CommitOrderly(st.shards[s]);
    forall m | m in st'.sent ensures Faithful(cfg, st', m) {
      FaithfulGrows(cfg, st, st', m);
    }
    forall x | x in st'.shards ensures Covers(cfg, st', x) {
      if x != s {
        CoversGrows(cfg, st, st', x);
      }
    }
    forall x, d, t | x in st'.shards && d in st'.shards ensures Exact(cfg, st', x, d, t) {
      assert Exact(cfg, st, x, d, t);
      if x == s {
        CommitExact(cfg, st, s, d, t);
      }
    }
  }

  lemma StopOrderly(sh: Shard)
    requires Orderly(sh)
    ensures Orderly(sh.(batch := None, failed := true))
    ensures Orderly(sh.(batch := None, failed := false, queue := [], first := true, lastProcessed := 0))
  {
    assert forall o :: AcceptedFrom(sh.(batch := None, failed := true), o) == AcceptedFrom(sh, o);
    assert forall o ::
      AcceptedFrom(sh.(batch := None, failed := false, queue := [], first := true, lastProcessed := 0), o)
      == AcceptedFrom(sh, o);
  }

  lemma AppendOrderly(sh: Shard, row: Row)
    requires Orderly(sh)
    ensures Orderly(Append(sh, row))
  {
    AppendProgress(sh, row);
    assert forall o :: AcceptedFrom(Append(sh, row), o) == AcceptedFrom(sh, o);
  }

  lemma StepInv(cfg: Config, st: System, step: Step)
    requires NeverMeet(cfg) && Inv(cfg, st) && Enabled(cfg, st, step) && !Skips(st, step)
    ensures Inv(cfg, Next(cfg, st, step))
  {
    hide Orderly, Faithful, Covers, Exact, NeverMeet, IsOrderOf, CanBegin;
    match step
    case Produce(s, row) =>
      AppendOrderly(st.shards[s], row);
      Frame(cfg, st, s, Append(st.shards[s], row));
    case Begin(s, n, blocks, known) => BeginInv(cfg, st, s, n, blocks, known);
    case Deliver(m) => DeliverInv(cfg, st, m);
    case Commit(s) => CommitInv(cfg, st, s);
    case Fail(s) =>
      StopOrderly(st.shards[s]);
      Frame(cfg, st, s, st.shards[s].(batch := None, failed := true));
    case Restart(s) =>
      StopOrderly(st.shards[s]);
      Frame(cfg, st, s, st.shards[s].(batch := None, failed := false, queue := [], first := true, lastProcessed := 0));
  }

  /** The run gives up no batch because of an unknown consumer. */
  predicate NeverSkips(cfg: Config, steps: seq<Step>) {
    steps != [] ==>
      var before := Run(cfg, steps[..|steps| - 1]);
      NeverSkips(cfg, steps[..|steps| - 1]) && (before.Some? ==> !Skips(before.value, steps[|steps| - 1]))
  }

  lemma {:induction false} RunInv(cfg: Config, steps: seq<Step>)
    requires NeverMeet(cfg) && NeverSkips(cfg, steps) && Run(cfg, steps).Some?
    ensures Inv(cfg, Run(cfg, steps).value)
  {
    if steps == [] {
      InitialInv(cfg);
    } else {
      var front := steps[..|steps| - 1];
      RunInv(cfg, front);
      StepInv(cfg, Run(cfg, front).value, steps[|steps| - 1]);
    }
  }

  /** Exactly-once forwarding. In every run, whatever fails, restarts, is sent again, is delivered
      again or late, and however rows are batched: what a shard has accepted from an originator is
      the in-order, duplicate-free list of the rows due to it up to some sequence, as routed, every committed row
      is covered, and the local effects are those of the committed rows, each once and in order. */
  lemma {:induction false} ExactlyOnce(cfg: Config, steps: seq<Step>, s: nat, d: nat, t: nat)
    requires NeverMeet(cfg) && NeverSkips(cfg, steps) && Run(cfg, steps).Some?
    requires s in cfg.shards && d in cfg.shards
    ensures var st := Run(cfg, steps).value;
            && s in st.shards && d in st.shards
            && var (c, log) := (|st.shards[s].effects|, st.shards[s].log);
               && c <= |log| && st.shards[s].effects == Range(0, c)
               && (forall i :: 0 < i <= |log| ==> (i in st.shards[s].pending <==> c < i))
               && exists k :: c <= k <= |log|
                    && AcceptedFrom(st.shards[d], Originator(t, s)) == Routed(cfg, s, log, t, d, k)
                    && OnlyDueRows(cfg, log, s, t, d, k, AcceptedFrom(st.shards[d], Originator(t, s)))
                    && AllDueRows(cfg, log, t, d, k, AcceptedFrom(st.shards[d], Originator(t, s)))
  {
    RunInv(cfg, steps);
    var st := Run(cfg, steps).value;
    assert Exact(cfg, st, s, d, t) && Orderly(st.shards[s]);
    var k := Max(|st.shards[s].effects|, Reach(st, s, d));
    assert AcceptedFrom(st.shards[d], Originator(t, s)) == Routed(cfg, s, st.shards[s].log, t, d, k);
    hide *;
    RoutedIsWhatIsDue(cfg, st.shards[s].log, s, t, d, k);
  }
}
