/** What a node hands to its state machine: committed entries and snapshots, pushed by the step worker
    as raft updates come in. Indexes are unsigned 64-bit numbers and subtraction wraps. */
module ApplyQueue {
  import opened Bytes

  datatype Entry = Entry(index: U64, body: nat)

  datatype Task = Entries(entries: seq<Entry>) | Snapshot(index: U64)

  /** An update: possibly a snapshot, and committed entries. */
  datatype Update = Update(snapshot: U64, entries: seq<Entry>, lastApplied: U64)

  predicate Contiguous(es: seq<Entry>) {
    forall i :: 0 <= i < |es| ==> es[i].index == es[0].index + i
  }

  /** entriesToApply; None is a panic. */
  function ToApply(es: seq<Entry>, pushed: U64): Option<seq<Entry>> {
    if es == [] then Some([])
    else if es[|es| - 1].index < pushed then None
    else if es[0].index > (pushed + 1) % TWO_64 then None
    else
      var start := (pushed - es[0].index + 1) % TWO_64;
      if start < |es| then Some(es[start..]) else Some([])
  }

  /** The slice start is right although the subtraction may wrap: of entries that do not panic exactly
      those after the pushed index are kept, and they begin right after it. */
  lemma SliceStart(es: seq<Entry>, pushed: U64)
    requires Contiguous(es) && es != [] && es[0].index > 0
    ensures ToApply(es, pushed).Some? <==> es[0].index <= pushed + 1 < TWO_64 && pushed <= es[|es| - 1].index
    ensures ToApply(es, pushed).Some? ==>
              var r := ToApply(es, pushed).value;
              && (forall i :: 0 <= i < |es| ==> (es[i] in r <==> es[i].index > pushed))
              && r == es[|es| - |r|..] && |r| == es[|es| - 1].index - pushed
              && (r != [] ==> r[0].index == pushed + 1)
  {
    if ToApply(es, pushed).Some? {
      var first := es[0].index;
      var start := pushed + 1 - first;
      Wrapped(pushed, first);
      forall i | 0 <= i < |es| ensures es[i] in ToApply(es, pushed).value <==> es[i].index > pushed {
        if start <= i {
          assert start < |es| && es[start..][i - start] == es[i];
        }
      }
    }
  }

  lemma Wrapped(pushed: U64, first: U64)
    requires first <= pushed + 1 < TWO_64
    ensures (pushed - first + 1) % TWO_64 == pushed + 1 - first
  {
  }

  // ---- Runs of updates ----------------------------------------------------------------------------

  datatype State = State(pushed: U64, ss: U64, tasks: seq<Task>)

  /** pushSnapshot; an update without a snapshot has index 0. */
  function PushSnapshot(s: State, index: U64, applied: U64): Option<State> {
    if index == 0 then Some(s)
    else if index < s.pushed || index < s.ss || index < applied then None
    else Some(State(index, index, s.tasks + [Snapshot(index)]))
  }

  function PushEntries(s: State, es: seq<Entry>): Option<State> {
    var r := ToApply(es, s.pushed);
    if r.None? then None
    else if r.value == [] then Some(s)
    else Some(s.(pushed := r.value[|r.value| - 1].index, tasks := s.tasks + [Entries(r.value)]))
  }

  function Process(s: State, ud: Update): Option<State> {
    var t := PushSnapshot(s, ud.snapshot, ud.lastApplied);
    if t.None? then None else PushEntries(t.value, ud.entries)
  }

  /** What happens to the node: the step worker processes an update, or a snapshot worker that has saved a snapshot
      stores its index, which may be behind the one a pushed snapshot has stored meanwhile. */
  datatype Event = Raft(update: Update) | Saved(index: U64)

  function Handle(s: State, e: Event): Option<State> {
    match e
    case Raft(ud) => Process(s, ud)
    case Saved(index) => Some(s.(ss := index))
  }

  function HandleAll(s: State, es: seq<Event>): Option<State> {
    if es == [] then Some(s)
    else
      var before := HandleAll(s, es[..|es| - 1]);
      if before.None? then None else Handle(before.value, es[|es| - 1])
  }

  /** Where a consumer that started at `from` stands after a list of tasks, if it never meets a gap, a repeat
      or a snapshot behind it. */
  function Position(from: U64, tasks: seq<Task>): Option<U64> {
    if tasks == [] then Some(from)
    else
      var at := Position(from, tasks[..|tasks| - 1]);
      if at.None? then None
      else
        match tasks[|tasks| - 1]
        case Snapshot(index) => if index >= at.value then Some(index) else None
        case Entries(es) =>
          if es != [] && Contiguous(es) && es[0].index == at.value + 1 then Some(es[|es| - 1].index) else None
  }

  /** The entries of an update are consecutive. Indexes start at 1. */
  predicate UpdateOk(ud: Update) {
    Contiguous(ud.entries) && (ud.entries != [] ==> ud.entries[0].index > 0)
  }

  predicate EventsOk(es: seq<Event>) {
    forall i :: 0 <= i < |es| && es[i].Raft? ==> UpdateOk(es[i].update)
  }

  lemma PositionSnoc(from: U64, tasks: seq<Task>, t: Task)
    requires Position(from, tasks).Some?
    ensures var at := Position(from, tasks).value;
            Position(from, tasks + [t])
            == match t
               case Snapshot(index) => if index >= at then Some(index) else None
               case Entries(es) =>
                 if es != [] && Contiguous(es) && es[0].index == at + 1 then Some(es[|es| - 1].index) else None
  {
    assert (tasks + [t])[..|tasks|] == tasks;
  }

  lemma SnapshotContiguous(from: U64, s: State, index: U64, applied: U64)
    requires Position(from, s.tasks) == Some(s.pushed) && PushSnapshot(s, index, applied).Some?
    ensures Position(from, PushSnapshot(s, index, applied).value.tasks)
      == Some(PushSnapshot(s, index, applied).value.pushed)
  {
    PositionSnoc(from, s.tasks, Snapshot(index));
  }

  lemma EntriesContiguous(from: U64, s: State, es: seq<Entry>)
    requires Position(from, s.tasks) == Some(s.pushed) && PushEntries(s, es).Some?
    requires Contiguous(es) && (es != [] ==> es[0].index > 0)
    ensures Position(from, PushEntries(s, es).value.tasks) == Some(PushEntries(s, es).value.pushed)
  {
    hide ToApply, Position;
    if es == [] {
      assert ToApply(es, s.pushed) == Some([]) by { NothingToApply(s.pushed); }
    } else {
      SliceStart(es, s.pushed);
      PositionSnoc(from, s.tasks, Entries(ToApply(es, s.pushed).value));
    }
  }

  lemma NothingToApply(pushed: U64)
    ensures ToApply([], pushed) == Some([])
  {
  }

  lemma ProcessContiguous(from: U64, s: State, ud: Update)
    requires Position(from, s.tasks) == Some(s.pushed) && UpdateOk(ud) && Process(s, ud).Some?
    ensures Position(from, Process(s, ud).value.tasks) == Some(Process(s, ud).value.pushed)
  {
    hide Position, PushEntries;
    SnapshotContiguous(from, s, ud.snapshot, ud.lastApplied);
    EntriesContiguous(from, PushSnapshot(s, ud.snapshot, ud.lastApplied).value, ud.entries);
  }

  /** Over any run of events that does not panic, what has been pushed is contiguous: no gap, no repeat,
      jumping only to a snapshot that is not behind, and the pushed index is where it ends. */
  lemma {:induction false} PushesAreContiguous(start: U64, ss: U64, es: seq<Event>)
    requires EventsOk(es) && HandleAll(State(start, ss, []), es).Some?
    ensures var s := HandleAll(State(start, ss, []), es).value;
            Position(start, s.tasks) == Some(s.pushed) && s.pushed >= start
  {
    if es != [] {
      var n := |es| - 1;
      PushesAreContiguous(start, ss, es[..n]);
      var s := HandleAll(State(start, ss, []), es[..n]).value;
      if es[n].Raft? {
        ProcessContiguous(start, s, es[n].update);
        PushedGrows(s, es[n].update);
      }
    }
  }

  lemma PushedGrows(s: State, ud: Update)
    requires UpdateOk(ud) && Process(s, ud).Some?
    ensures Process(s, ud).value.pushed >= s.pushed
  {
    if ud.entries != [] {
      SliceStart(ud.entries, PushSnapshot(s, ud.snapshot, ud.lastApplied).value.pushed);
    }
  }

  // ---- Every pushed entry is the committed one ---------------------------------------------------------

  /** The entries of a list of tasks, in order. */
  function EntriesOf(tasks: seq<Task>): seq<Entry> {
    if tasks == [] then []
    else
      var last := tasks[|tasks| - 1];
      EntriesOf(tasks[..|tasks| - 1]) + if last.Entries? then last.entries else []
  }

  /** The updates carry entries of this log. */
  ghost predicate FromLog(es: seq<Event>, log: U64 -> Entry) {
    forall i, k :: 0 <= i < |es| && es[i].Raft? && 0 <= k < |es[i].update.entries| ==>
      es[i].update.entries[k] == log(es[i].update.entries[k].index)
  }

  ghost predicate AllFromLog(entries: seq<Entry>, log: U64 -> Entry) {
    forall k :: 0 <= k < |entries| ==> entries[k] == log(entries[k].index)
  }

  lemma ToApplyFromLog(es: seq<Entry>, pushed: U64, log: U64 -> Entry)
    requires AllFromLog(es, log) && ToApply(es, pushed).Some?
    ensures AllFromLog(ToApply(es, pushed).value, log)
  {
  }

  lemma ProcessFromLog(s: State, ud: Update, log: U64 -> Entry)
    requires AllFromLog(EntriesOf(s.tasks), log) && AllFromLog(ud.entries, log) && Process(s, ud).Some?
    ensures AllFromLog(EntriesOf(Process(s, ud).value.tasks), log)
  {
    hide ToApply;
    var t := PushSnapshot(s, ud.snapshot, ud.lastApplied).value;
    assert (s.tasks + [Snapshot(ud.snapshot)])[..|s.tasks|] == s.tasks;
    ToApplyFromLog(ud.entries, t.pushed, log);
    var r := ToApply(ud.entries, t.pushed).value;
    assert (t.tasks + [Entries(r)])[..|t.tasks|] == t.tasks;
  }

  /** Whatever the updates repeat or skip, the entries handed to the state machine are those of the committed log, each
      under its own index; with `PushesAreContiguous` they are exactly the log from where it started, but for
      what snapshots jump over. */
  lemma {:induction false} PushesAreTheLog(start: U64, ss: U64, es: seq<Event>, log: U64 -> Entry)
    requires FromLog(es, log) && HandleAll(State(start, ss, []), es).Some?
    ensures AllFromLog(EntriesOf(HandleAll(State(start, ss, []), es).value.tasks), log)
  {
    hide Process, EntriesOf;
    if es != [] {
      var n := |es| - 1;
      PushesAreTheLog(start, ss, es[..n], log);
      var s := HandleAll(State(start, ss, []), es[..n]).value;
      if es[n].Raft? {
        ProcessFromLog(s, es[n].update, log);
      }
    } else {
      NoEntries();
    }
  }

  lemma NoEntries()
    ensures EntriesOf([]) == []
  {
  }

  // ---- When nothing panics ------------------------------------------------------------------------

  /** How far the committed log has been handed over, and the last snapshot index that was stored. */
  datatype Handover = Handover(at: U64, ss: U64)

  /** An update, told from the events alone: a snapshot must not be behind what was handed over, stored or applied, and
      entries must neither leave a gap nor end behind. */
  function HandedBy(h: Handover, ud: Update): Option<Handover> {
    if ud.snapshot != 0 && (ud.snapshot < h.at || ud.snapshot < h.ss || ud.snapshot < ud.lastApplied) then None
    else
      var from := if ud.snapshot != 0 then Handover(ud.snapshot, ud.snapshot) else h;
      if ud.entries == [] then Some(from)
      else if ud.entries[0].index <= from.at + 1 < TWO_64 && from.at <= ud.entries[|ud.entries| - 1].index
      then Some(from.(at := ud.entries[|ud.entries| - 1].index)) else None
  }

  function Handed(start: Handover, es: seq<Event>): Option<Handover> {
    if es == [] then Some(start)
    else
      var before := Handed(start, es[..|es| - 1]);
      if before.None? then None
      else match es[|es| - 1]
           case Raft(ud) => HandedBy(before.value, ud)
           case Saved(index) => Some(before.value.(ss := index))
  }

  lemma ProcessHanded(s: State, ud: Update)
    requires UpdateOk(ud)
    ensures Process(s, ud).Some? <==> HandedBy(Handover(s.pushed, s.ss), ud).Some?
    ensures Process(s, ud).Some? ==>
              var s' := Process(s, ud).value; Some(Handover(s'.pushed, s'.ss)) == HandedBy(Handover(s.pushed, s.ss), ud)
  {
    hide ToApply;
    var t := PushSnapshot(s, ud.snapshot, ud.lastApplied);
    if t.Some? {
      if ud.entries == [] {
        NothingToApply(t.value.pushed);
      } else {
        SliceStart(ud.entries, t.value.pushed);
      }
    }
  }

  /** A run of events panics exactly when an update leaves a gap or ends behind, or a snapshot is behind what was handed
      over, stored or applied; otherwise the pushed index is how far the log has been handed over. */
  lemma {:induction false} PanicsExactly(start: U64, ss: U64, es: seq<Event>)
    requires EventsOk(es)
    ensures HandleAll(State(start, ss, []), es).Some? <==> Handed(Handover(start, ss), es).Some?
    ensures HandleAll(State(start, ss, []), es).Some? ==>
              var s := HandleAll(State(start, ss, []), es).value;
              Handed(Handover(start, ss), es) == Some(Handover(s.pushed, s.ss))
  {
    hide Process, HandedBy;
    if es != [] {
      var n := |es| - 1;
      PanicsExactly(start, ss, es[..n]);
      var before := HandleAll(State(start, ss, []), es[..n]);
      if before.Some? && es[n].Raft? {
        ProcessHanded(before.value, es[n].update);
      }
    }
  }

  /** The log goes on: every update begins at or before the next index and ends at or after the last, snapshots are not
      behind it, and the state machine has applied and saved nothing that it has not been handed. */
  predicate Gapless(start: U64, es: seq<Event>) {
    es != [] ==>
      var before := es[..|es| - 1];
      && Gapless(start, before)
      && match es[|es| - 1]
         case Saved(index) => index <= LastHanded(start, before)
         case Raft(ud) =>
           && ud.lastApplied <= LastHanded(start, before)
           && (ud.snapshot == 0 || LastHanded(start, before) <= ud.snapshot)
           && var from := if ud.snapshot != 0 then ud.snapshot else LastHanded(start, before);
              ud.entries != [] ==>
                ud.entries[0].index <= from + 1 < TWO_64 && from <= ud.entries[|ud.entries| - 1].index
  }

  /** The index the last update ends with. */
  function LastHanded(start: U64, es: seq<Event>): U64 {
    if es == [] then start
    else if es[|es| - 1].Saved? then LastHanded(start, es[..|es| - 1])
    else
      var ud := es[|es| - 1].update;
      if ud.entries != [] then ud.entries[|ud.entries| - 1].index
      else if ud.snapshot != 0 then ud.snapshot else LastHanded(start, es[..|es| - 1])
  }

  lemma {:induction false} GaplessHandsOver(start: U64, ss: U64, es: seq<Event>)
    requires Gapless(start, es) && ss <= start
    ensures var h := Handed(Handover(start, ss), es);
            h.Some? && h.value.at == LastHanded(start, es) && h.value.ss <= h.value.at
  {
    if es != [] {
      GaplessHandsOver(start, ss, es[..|es| - 1]);
    }
  }

  /** A gapless committed log never panics, whatever it repeats, and is handed over to its end. */
  lemma {:induction false} NeverPanics(start: U64, ss: U64, es: seq<Event>)
    requires EventsOk(es) && ss <= start && Gapless(start, es)
    ensures HandleAll(State(start, ss, []), es).Some?
    ensures HandleAll(State(start, ss, []), es).value.pushed == LastHanded(start, es)
  {
    GaplessHandsOver(start, ss, es);
    PanicsExactly(start, ss, es);
  }

  // ---- The node in place --------------------------------------------------------------------------

  class Node {
    var pushedIndex: U64
    var ssIndex: U64
    var queue: seq<Task>

    constructor (index: U64)
      ensures View() == State(index, index, [])
    {
      pushedIndex, ssIndex, queue := index, index, [];
    }

    function View(): State
      reads this
    {
      State(pushedIndex, ssIndex, queue)
    }

    /** A snapshot worker has saved a snapshot. */
    method StoreSaved(index: U64)
      modifies this`ssIndex
      ensures Some(View()) == Handle(old(View()), Saved(index))
    {
      ssIndex := index;
    }

    /** processSnapshot and applyRaftUpdates for one update. */
    method ProcessUpdate(ud: Update) returns (panicked: bool)
      modifies this
      ensures panicked <==> Handle(old(View()), Raft(ud)).None?
      ensures !panicked ==> Some(View()) == Handle(old(View()), Raft(ud))
    {
      if ud.snapshot != 0 {
        if ud.snapshot < pushedIndex || ud.snapshot < ssIndex || ud.snapshot < ud.lastApplied {
          return true;
        }
        queue := queue + [Snapshot(ud.snapshot)];
        ssIndex := ud.snapshot;
        pushedIndex := ud.snapshot;
      }
      var r := ToApply(ud.entries, pushedIndex);
      if r.None? {
        return true;
      }
      if |r.value| > 0 {
        queue := queue + [Entries(r.value)];
        pushedIndex := r.value[|r.value| - 1].index;
      }
      return false;
    }
  }
}
