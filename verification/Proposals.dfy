/** The table of pending proposals. Callers insert a request, queue its entry and possibly withdraw it;
    the apply worker takes and then notifies; garbage collection and closing notify what is left. Each
    step is one critical section, and the steps of all threads interleave. */
module Proposals {
  import opened Bytes

  datatype Code = Completed | Rejected | Dropped | TimedOut | Terminated

  datatype Request = Request(client: U64, series: U64, deadline: U64)

  /** What a request's result channel has been sent, with the tick the sender went by. */
  datatype Notice = Notice(code: Code, tick: U64)

  /** `notices` is the history of every request's channel. */
  datatype Table = Table(pending: map<U64, Request>, stopped: bool, lastGc: U64, notices: map<U64, seq<Notice>>)

  function Sent(notices: map<U64, seq<Notice>>, key: U64): seq<Notice> {
    if key in notices then notices[key] else []
  }

  function Notify(t: Table, key: U64, n: Notice): Table {
    t.(notices := t.notices[key := Sent(t.notices, key) + [n]])
  }

  /** takeProposal with removal. */
  function Take(t: Table, key: U64, client: U64, series: U64, now: U64): Option<Request> {
    if !t.stopped && key in t.pending && t.pending[key].deadline >= now && t.pending[key].client == client
       && t.pending[key].series == series
    then Some(t.pending[key]) else None
  }

  /** The guard of a collection: unsigned subtraction, so a tick read before the last collection's tick
      counts as long past it. */
  predicate GcDue(t: Table, now: U64, gcTick: U64) {
    !t.stopped && (now - t.lastGc) % TWO_64 >= gcTick
  }

  function Expired(pending: map<U64, Request>, now: U64): set<U64> {
    set key | key in pending && pending[key].deadline < now
  }

  function NotifyAll(t: Table, keys: set<U64>, n: Notice): Table {
    t.(notices := map key | key in t.notices.Keys + keys :: Sent(t.notices, key) + if key in keys then [n] else [])
  }

  function Collect(t: Table, now: U64, gcTick: U64): Table {
    if !GcDue(t, now, gcTick) then t
    else
      var gone := Expired(t.pending, now);
      NotifyAll(t, gone, Notice(TimedOut, now)).(pending := t.pending - gone, lastGc := now)
  }

  function Close(t: Table, now: U64): Table {
    NotifyAll(t, t.pending.Keys, Notice(Terminated, now)).(stopped := true)
  }

  /** After a collection that was due, nothing that is pending has expired, nothing unexpired has been
      touched, and exactly the expired requests have been sent a timeout. */
  lemma CollectClears(t: Table, now: U64, gcTick: U64, key: U64)
    requires GcDue(t, now, gcTick)
    ensures var t' := Collect(t, now, gcTick);
            && (key in t'.pending <==> key in t.pending && t.pending[key].deadline >= now)
            && (key in t'.pending ==> t'.pending[key] == t.pending[key]) && t'.lastGc == now
            && Sent(t'.notices, key)
               == Sent(t.notices, key)
                  + if key in t.pending && t.pending[key].deadline < now then [Notice(TimedOut, now)] else []
  {
    assert Sent(t.notices, key) + [] == Sent(t.notices, key);
  }

  /** The pending requests while the collection has still to visit `todo`. */
  function Left(pending: map<U64, Request>, gone: set<U64>, todo: set<U64>): map<U64, Request> {
    pending - (gone - todo)
  }

  lemma LeftAt(pending: map<U64, Request>, now: U64, todo: set<U64>, key: U64)
    requires key in todo && todo <= pending.Keys
    ensures var gone := Expired(pending, now);
            && key in Left(pending, gone, todo) && Left(pending, gone, todo)[key] == pending[key]
            && (key in gone <==> pending[key].deadline < now)
            && (key in gone ==> Left(pending, gone, todo - {key}) == Left(pending, gone, todo) - {key})
            && (key in gone ==> gone - (todo - {key}) == gone - todo + {key})
            && (key !in gone ==>
                  && gone - (todo - {key}) == gone - todo
                  && Left(pending, gone, todo - {key}) == Left(pending, gone, todo))
            && (key in gone ==> key !in gone - todo)
  {
  }

  lemma LeftEnds(pending: map<U64, Request>, now: U64)
    ensures var gone := Expired(pending, now);
            && Left(pending, gone, pending.Keys) == pending && gone - pending.Keys == {}
            && Left(pending, gone, {}) == pending - gone && gone - {} == gone
  {
  }

  /** Exactly the given requests have been sent one more notice. */
  ghost predicate Extended(before: map<U64, seq<Notice>>, after: map<U64, seq<Notice>>, keys: set<U64>, n: Notice) {
    forall key :: Sent(after, key) == Sent(before, key) + if key in keys then [n] else []
  }

  lemma ExtendedByNone(notices: map<U64, seq<Notice>>, n: Notice)
    ensures Extended(notices, notices, {}, n)
  {
    assert forall key :: Sent(notices, key) + [] == Sent(notices, key);
  }

  lemma ExtendedByOne(a: map<U64, seq<Notice>>, b: map<U64, seq<Notice>>, c: map<U64, seq<Notice>>, keys: set<U64>,
                      key: U64, n: Notice)
    requires Extended(a, b, keys, n) && Extended(b, c, {key}, n) && key !in keys
    ensures Extended(a, c, keys + {key}, n)
  {
    hide Sent;
    forall k ensures Sent(c, k) == Sent(a, k) + if k in keys + {key} then [n] else [] {
      assert Sent(c, k) == Sent(b, k) + if k in {key} then [n] else [];
      assert Sent(b, k) == Sent(a, k) + if k in keys then [n] else [];
      assert Sent(b, k) + [] == Sent(b, k) && Sent(a, k) + [] == Sent(a, k);
    }
  }

  // ---- The table in place -------------------------------------------------------------------------

  class ProposalShard {
    var pending: map<U64, Request>
    var stopped: bool
    var lastGc: U64
    const gcTick: U64
    ghost var notices: map<U64, seq<Notice>>

    ghost function View(): Table
      reads this
    {
      Table(pending, stopped, lastGc, notices)
    }

    ghost method Send(key: U64, n: Notice)
      modifies this`notices
      ensures Extended(old(notices), notices, {key}, n)
    {
      notices := notices[key := Sent(notices, key) + [n]];
      assert forall k :: old(Sent(notices, k)) + [] == old(Sent(notices, k));
    }

    method TakeProposal(key: U64, client: U64, series: U64, now: U64, remove: bool) returns (r: Option<Request>)
      modifies this`pending
      ensures r == Take(old(View()), key, client, series, now)
      ensures View() == if r.Some? && remove then old(View()).(pending := old(pending) - {key}) else old(View())
    {
      if stopped {
        return None;
      }
      if key in pending && pending[key].deadline >= now {
        var ps := pending[key];
        if ps.client == client && ps.series == series {
          if remove {
            pending := pending - {key};
          }
          return Some(ps);
        }
      }
      return None;
    }

    method GcAt(now: U64)
      modifies this`pending, this`lastGc, this`notices
      ensures pending == Collect(old(View()), now, gcTick).pending && lastGc == Collect(old(View()), now, gcTick).lastGc
      ensures forall key :: Sent(notices, key) == Sent(Collect(old(View()), now, gcTick).notices, key)
    {
      if stopped || (now - lastGc) % TWO_64 < gcTick {
        return;
      }
      ghost var before := View();
      lastGc := now;
      ExpireAll(now);
      forall key ensures Sent(notices, key) == Sent(Collect(before, now, gcTick).notices, key) {
        CollectClears(before, now, gcTick, key);
      }
    }

    /** The loop of gcAt deletes from the map it walks over. */
    method ExpireAll(now: U64)
      modifies this`pending, this`notices
      ensures pending == old(pending) - Expired(old(pending), now)
      ensures Extended(old(notices), notices, Expired(old(pending), now), Notice(TimedOut, now))
    {
      hide Extended, Expired, Left;
      ghost var all, sent, gone := pending, notices, Expired(pending, now);
      var todo := pending.Keys;
      LeftEnds(all, now);
      ExtendedByNone(notices, Notice(TimedOut, now));
      while todo != {}
        invariant todo <= all.Keys && pending == Left(all, gone, todo)
        invariant Extended(sent, notices, gone - todo, Notice(TimedOut, now))
        decreases |todo|
      {
        var key :| key in todo;
        LeftAt(all, now, todo, key);
        if pending[key].deadline < now {
          ghost var before := notices;
          Send(key, Notice(TimedOut, now));
          ExtendedByOne(sent, before, notices, gone - todo, key, Notice(TimedOut, now));
          pending := pending - {key};
        }
        todo := todo - {key};
      }
    }

    /** close: what is pending is terminated and stays in the map. */
    method CloseShard(ghost now: U64)
      modifies this`stopped, this`notices
      ensures stopped && Extended(old(notices), notices, pending.Keys, Notice(Terminated, now))
    {
      hide Extended;
      stopped := true;
      ghost var sent := notices;
      var todo := pending.Keys;
      ExtendedByNone(notices, Notice(Terminated, now));
      assert pending.Keys - todo == {};
      while todo != {}
        invariant stopped && todo <= pending.Keys
        invariant Extended(sent, notices, pending.Keys - todo, Notice(Terminated, now))
        decreases |todo|
      {
        var key :| key in todo;
        ghost var before := notices;
        Send(key, Notice(Terminated, now));
        ExtendedByOne(sent, before, notices, pending.Keys - todo, key, Notice(Terminated, now));
        assert pending.Keys - (todo - {key}) == pending.Keys - todo + {key};
        todo := todo - {key};
      }
      assert pending.Keys - {} == pending.Keys;
    }
  }

  /** Closing the table is sending every pending request a termination. */
  lemma CloseTerminates(t: Table, now: U64)
    ensures Extended(t.notices, Close(t, now).notices, t.pending.Keys, Notice(Terminated, now))
  {
    assert forall key :: Sent(t.notices, key) + [] == Sent(t.notices, key);
  }

  // ---- All threads --------------------------------------------------------------------------------

  /** How far a caller of propose has come. */
  datatype Call = Inserted | Accepted | Refused | Withdrawn

  /** `requests` remembers every request ever inserted; `flight` holds what the apply worker has taken and
      not yet notified. */
  datatype System = System(table: Table, clock: U64, requests: map<U64, Request>, calls: map<U64, Call>,
                           flight: map<U64, Notice>)

  datatype Step =
    | Tick(tick: U64)
    | Insert(key: U64, client: U64, series: U64, timeout: U64)
    | Enqueue(key: U64, accepted: bool)
    | Withdraw(key: U64)
    | TakeForNotice(key: U64, client: U64, series: U64, now: U64, code: Code)
    | Deliver(key: U64)
    | Gc(now: U64, gcTick: U64)
    | CloseTable

  /** Keys are never drawn twice, the queue accepts nothing once closed, and a table is closed once. */
  predicate Enabled(st: System, step: Step) {
    match step
    case Tick(_) => true
    case Insert(key, _, _, timeout) => key !in st.requests && timeout > 0
    case Enqueue(key, accepted) => key in st.calls && st.calls[key] == Inserted && (accepted ==> !st.table.stopped)
    case Withdraw(key) => key in st.calls && st.calls[key] == Refused
    case TakeForNotice(key, client, series, now, code) =>
      Take(st.table, key, client, series, now).Some? && (code == Completed || code == Rejected || code == Dropped)
    case Deliver(key) => key in st.flight
    case Gc(_, _) => true
    case CloseTable => !st.table.stopped
  }

  function Next(st: System, step: Step): System
    requires Enabled(st, step)
  {
    match step
    case Tick(tick) => st.(clock := tick)
    case Insert(key, client, series, timeout) =>
      var r := Request(client, series, (st.clock + timeout) % TWO_64);
      st.(table := st.table.(pending := st.table.pending[key := r]), requests := st.requests[key := r],
          calls := st.calls[key := Inserted])
    case Enqueue(key, accepted) => st.(calls := st.calls[key := if accepted then Accepted else Refused])
    case Withdraw(key) =>
      st.(table := st.table.(pending := st.table.pending - {key}), calls := st.calls[key := Withdrawn])
    case TakeForNotice(key, _, _, now, code) =>
      st.(table := st.table.(pending := st.table.pending - {key}), flight := st.flight[key := Notice(code, now)])
    case Deliver(key) => st.(table := Notify(st.table, key, st.flight[key]), flight := st.flight - {key})
    case Gc(now, gcTick) => st.(table := Collect(st.table, now, gcTick))
    case CloseTable => st.(table := Close(st.table, st.clock))
  }

  const INITIAL: System := System(Table(map[], false, 0, map[]), 0, map[], map[], map[])

  function Run(steps: seq<Step>): Option<System> {
    if steps == [] then Some(INITIAL)
    else
      var before := Run(steps[..|steps| - 1]);
      if before.Some? && Enabled(before.value, steps[|steps| - 1])
      then Some(Next(before.value, steps[|steps| - 1])) else None
  }

  /** Why a notice may be sent: timeouts only past the deadline, results only up to it. */
  predicate Justified(n: Notice, r: Request, stopped: bool) {
    match n.code
    case TimedOut => r.deadline < n.tick
    case Terminated => stopped
    case Completed => n.tick <= r.deadline
    case Rejected => n.tick <= r.deadline
    case Dropped => n.tick <= r.deadline
  }

  predicate KeyOk(st: System, key: U64)
    requires key in st.requests
  {
    var t, sent := st.table, Sent(st.table.notices, key);
    && |sent| <= 1
    && (sent != [] ==> Justified(sent[0], st.requests[key], t.stopped))
    && (key in t.pending ==> t.pending[key] == st.requests[key] && (t.stopped || sent == []))
    && (key in st.flight ==> key !in t.pending && sent == [] && st.flight[key].code != TimedOut
                             && Justified(st.flight[key], st.requests[key], false))
    && key in st.calls
    && (st.calls[key] == Inserted || st.calls[key] == Accepted ==> key in t.pending || key in st.flight || sent != [])
  }

  predicate Inv(st: System) {
    && st.table.pending.Keys <= st.requests.Keys && st.flight.Keys <= st.requests.Keys
    && st.table.notices.Keys <= st.requests.Keys && st.calls.Keys <= st.requests.Keys
    && forall key :: key in st.requests ==> KeyOk(st, key)
  }

  /** Collection and closing, seen from one request. */
  lemma SweepStep(st: System, step: Step, key: U64)
    requires Inv(st) && Enabled(st, step) && (step.Gc? || step.CloseTable?) && key in st.requests
    ensures KeyOk(Next(st, step), key)
  {
    assert KeyOk(st, key);
    var seen := Sent(st.table.notices, key);
    assert seen + [] == seen;
  }

  /** The other steps, seen from one request. */
  lemma KeyStep(st: System, step: Step, key: U64)
    requires Inv(st) && Enabled(st, step) && !step.Gc? && !step.CloseTable? && key in Next(st, step).requests
    ensures KeyOk(Next(st, step), key)
  {
    assert key in st.requests ==> KeyOk(st, key);
  }

  lemma StepInv(st: System, step: Step)
    requires Inv(st) && Enabled(st, step)
    ensures Inv(Next(st, step))
  {
    hide KeyOk;
    var st' := Next(st, step);
    forall key | key in st'.requests ensures KeyOk(st', key) {
      if step.Gc? || step.CloseTable? {
        SweepStep(st, step, key);
      } else {
        KeyStep(st, step, key);
      }
    }
  }

  lemma {:induction false} RunInv(steps: seq<Step>)
    requires Run(steps).Some?
    ensures Inv(Run(steps).value)
  {
    hide Inv, Enabled, Next;
    if steps == [] {
      assert Inv(INITIAL) by { InitialInv(); }
    } else {
      RunInv(steps[..|steps| - 1]);
      StepInv(Run(steps[..|steps| - 1]).value, steps[|steps| - 1]);
    }
  }

  lemma InitialInv()
    ensures Inv(INITIAL)
  {
  }

  /** Over every interleaving: a proposal is sent at most one result, so never both a timeout and a
      completion; a timeout only for a passed deadline and a result only for one that had not passed;
      and a proposal whose caller was told it is queued is pending, about to be notified, or notified. */
  lemma {:induction false} AtMostOneResult(steps: seq<Step>, key: U64)
    requires Run(steps).Some? && key in Run(steps).value.requests
    ensures var st := Run(steps).value;
            var sent := Sent(st.table.notices, key);
            && |sent| <= 1
            && (sent != [] ==> Justified(sent[0], st.requests[key], st.table.stopped))
            && (key in st.calls && st.calls[key] == Accepted ==>
              key in st.table.pending || key in st.flight || sent != [])
            && (!st.table.stopped && sent != [] ==> key !in st.table.pending && key !in st.flight)
  {
    RunInv(steps);
    assert KeyOk(Run(steps).value, key);
  }
}
