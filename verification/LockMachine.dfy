/** The replicated lock table. Lock names are paths: a name cannot be held together with a prefix of
    it. The machine keeps the locks in memory and in the store, and reloads them from there. */
module LockMachine {
  import opened Bytes
  import StringKeys
  import opened TableKeys
  import opened NamedKeys

  const LOCKS_TABLE: U64 := 3
  const LOCKS_CLUSTER: U64 := 2

  /** Who holds what. */
  type Locks = map<Bytes, Bytes>

  datatype Command = GetLock(name: Bytes, locker: Bytes) | ReleaseLock(name: Bytes, locker: Bytes) | UnknownCommand

  predicate Related(a: Bytes, b: Bytes) { a <= b || b <= a }

  function Conflicts(locks: Locks, name: Bytes): set<Bytes> {
    set k | k in locks && Related(k, name)
  }

  function After(locks: Locks, c: Command): Locks {
    match c
    case GetLock(name, locker) => if Conflicts(locks, name) == {} then locks[name := locker] else locks
    case ReleaseLock(name, _) => locks - {name}
    case UnknownCommand => locks
  }

  /** The answers the machine may give: with several conflicting locks the last one visited decides. */
  predicate Answers(locks: Locks, c: Command, ok: bool) {
    match c
    case GetLock(name, locker) =>
      if Conflicts(locks, name) == {} then ok else exists k ::
        k in Conflicts(locks, name) && (ok <==> locks[k] == locker)
    case ReleaseLock(_, _) => ok
    case UnknownCommand => false
  }

  function AfterAll(locks: Locks, cs: seq<Command>): Locks {
    if cs == [] then locks else After(AfterAll(locks, cs[..|cs| - 1]), cs[|cs| - 1])
  }

  /** The answers the machine may give to a log. */
  predicate AnswersAll(locks: Locks, cs: seq<Command>, oks: seq<bool>) {
    |oks| == |cs| && forall i :: 0 <= i < |cs| ==> Answers(AfterAll(locks, cs[..i]), cs[i], oks[i])
  }

  /** Any split of a log into batches leads to the same locks and allows the same answers. */
  lemma {:induction false} SplitIntoBatches(locks: Locks, a: seq<Command>, b: seq<Command>, x: seq<bool>, y: seq<bool>)
    requires |x| == |a| && |y| == |b|
    ensures AfterAll(locks, a + b) == AfterAll(AfterAll(locks, a), b)
    ensures AnswersAll(locks, a + b, x + y) <==> AnswersAll(locks, a, x) && AnswersAll(AfterAll(locks, a), b, y)
  {
    hide Answers, After;
    SplitLocks(locks, a, b);
    forall i | 0 <= i < |a|
      ensures AfterAll(locks, (a + b)[..i]) == AfterAll(locks, a[..i]) && (a + b)[i] == a[i] && (x + y)[i] == x[i]
    {
      assert (a + b)[..i] == a[..i];
    }
    forall i | 0 <= i < |b|
      ensures AfterAll(locks, (a + b)[..|a| + i]) == AfterAll(AfterAll(locks, a), b[..i])
      ensures (a + b)[|a| + i] == b[i] && (x + y)[|a| + i] == y[i]
    {
      assert (a + b)[..|a| + i] == a + b[..i];
      SplitLocks(locks, a, b[..i]);
    }
    if AnswersAll(locks, a + b, x + y) {
      forall i | 0 <= i < |b| ensures Answers(AfterAll(AfterAll(locks, a), b[..i]), b[i], y[i]) {
        assert Answers(AfterAll(locks, (a + b)[..|a| + i]), (a + b)[|a| + i], (x + y)[|a| + i]);
      }
    }
    if AnswersAll(locks, a, x) && AnswersAll(AfterAll(locks, a), b, y) {
      forall i | 0 <= i < |a + b| ensures Answers(AfterAll(locks, (a + b)[..i]), (a + b)[i], (x + y)[i]) {
        assert i < |a| || (a + b)[i] == b[i - |a|];
      }
    }
  }

  lemma {:induction false} SplitLocks(locks: Locks, a: seq<Command>, b: seq<Command>)
    ensures AfterAll(locks, a + b) == AfterAll(AfterAll(locks, a), b)
  {
    if b == [] {
      assert a + b == a;
    } else {
      var n := |b| - 1;
      assert (a + b)[..|a + b| - 1] == a + b[..n];
      SplitLocks(locks, a, b[..n]);
    }
  }

  predicate Exclusive(locks: Locks) {
    forall a, b :: a in locks && b in locks && a != b ==> !Related(a, b)
  }

  /** In every run no held name is a prefix of another. */
  lemma {:induction false} AlwaysExclusive(cs: seq<Command>)
    ensures Exclusive(AfterAll(map[], cs))
  {
    if cs != [] {
      var n := |cs| - 1;
      AlwaysExclusive(cs[..n]);
      var locks := AfterAll(map[], cs[..n]);
      if cs[n].GetLock? && Conflicts(locks, cs[n].name) == {} {
        forall k | k in locks ensures !Related(k, cs[n].name) {
          assert k !in Conflicts(locks, cs[n].name);
        }
      }
    }
  }

  // ---- Who holds what, told from the commands alone -------------------------------------------------

  /** The lock that command j asked for is released between j and i. */
  predicate Released(cs: seq<Command>, j: nat, i: nat)
    requires j < i <= |cs| && cs[j].GetLock?
  {
    exists k :: j < k < i && cs[k].ReleaseLock? && cs[k].name == cs[j].name
  }

  /** Command i asks for a lock when every lock granted before it for a related name has been released. */
  predicate Granted(cs: seq<Command>, i: nat)
    requires i < |cs|
    decreases i
  {
    && cs[i].GetLock?
    && forall j :: 0 <= j < i && Granted(cs, j) && Related(cs[j].name, cs[i].name) ==> Released(cs, j, i)
  }

  /** The lock that command i was granted has not been released since. */
  predicate HeldSince(cs: seq<Command>, i: nat, name: Bytes, locker: Bytes) {
    i < |cs| && Granted(cs, i) && cs[i] == GetLock(name, locker) && !Released(cs, i, |cs|)
  }

  lemma ReleasedBefore(cs: seq<Command>, c: Command, j: nat, i: nat)
    requires j < i <= |cs| && cs[j].GetLock?
    ensures Released(cs + [c], j, i) <==> Released(cs, j, i)
  {
    var cs' := cs + [c];
    if Released(cs, j, i) {
      var k :| j < k < i && cs[k].ReleaseLock? && cs[k].name == cs[j].name;
      assert cs'[k] == cs[k];
    }
  }

  /** Whether a get is granted depends only on what came before it. */
  lemma {:induction false} GrantedBefore(cs: seq<Command>, c: Command, i: nat)
    requires i < |cs|
    ensures Granted(cs + [c], i) <==> Granted(cs, i)
    decreases i
  {
    hide Related, Released;
    forall j: nat | j < i
      ensures Granted(cs + [c], j) <==> Granted(cs, j)
      ensures cs[j].GetLock? ==> (Released(cs + [c], j, i) <==> Released(cs, j, i))
    {
      GrantedBefore(cs, c, j);
      if cs[j].GetLock? {
        ReleasedBefore(cs, c, j, i);
      }
    }
    assert (cs + [c])[i] == cs[i];
    assert forall j :: 0 <= j < i ==> (cs + [c])[j] == cs[j];
  }

  /** One more command, for a lock granted before it. */
  lemma HeldSinceSnoc(cs: seq<Command>, c: Command, i: nat, name: Bytes, locker: Bytes)
    requires i < |cs|
    ensures HeldSince(cs + [c], i, name, locker) <==>
              HeldSince(cs, i, name, locker) && !(c.ReleaseLock? && c.name == name)
  {
    hide Granted;
    var cs' := cs + [c];
    GrantedBefore(cs, c, i);
    if cs[i] == GetLock(name, locker) {
      ReleasedBefore(cs, c, i, |cs|);
      if Released(cs', i, |cs|) {
        var k :| i < k < |cs| && cs'[k].ReleaseLock? && cs'[k].name == name;
        assert Released(cs', i, |cs'|);
      } else if c.ReleaseLock? && c.name == name {
        assert cs'[|cs|] == c;
      }
    }
  }

  /** The new command, when it is a get. */
  lemma GrantedLast(cs: seq<Command>, name: Bytes, locker: Bytes)
    ensures HeldSince(cs + [GetLock(name, locker)], |cs|, name, locker)
            <==> forall j: nat, n, l :: HeldSince(cs, j, n, l) ==> !Related(n, name)
  {
    hide Related;
    var cs' := cs + [GetLock(name, locker)];
    forall j: nat | j < |cs|
      ensures cs'[j] == cs[j] && (Granted(cs', j) <==> Granted(cs, j))
      ensures cs[j].GetLock? ==> (Released(cs', j, |cs|) <==> Released(cs, j, |cs|))
    {
      GrantedBefore(cs, GetLock(name, locker), j);
      if cs[j].GetLock? {
        ReleasedBefore(cs, GetLock(name, locker), j, |cs|);
      }
    }
    if forall j: nat, n, l :: HeldSince(cs, j, n, l) ==> !Related(n, name) {
      forall j: nat | j < |cs| && Granted(cs', j) && Related(cs'[j].name, name) ensures Released(cs', j, |cs|) {
        assert HeldSince(cs, j, cs[j].name, cs[j].locker) || Released(cs, j, |cs|);
      }
    }
    if j: nat, n, l :| HeldSince(cs, j, n, l) && Related(n, name) {
      assert Granted(cs', j) && !Released(cs', j, |cs|);
    }
  }

  /** What is held is what was granted and not released since, by the locker it was granted to. */
  ghost predicate HeldIn(locks: Locks, cs: seq<Command>) {
    && (forall name :: name in locks ==> exists i: nat :: HeldSince(cs, i, name, locks[name]))
    && (forall i: nat, name, locker :: HeldSince(cs, i, name, locker) ==> name in locks && locks[name] == locker)
  }

  lemma HeldAfterOther(locks: Locks, cs: seq<Command>, c: Command)
    requires HeldIn(locks, cs) && !c.GetLock?
    ensures HeldIn(After(locks, c), cs + [c])
  {
    hide HeldSince;
    var (locks', cs') := (After(locks, c), cs + [c]);
    forall name | name in locks' ensures exists i: nat :: HeldSince(cs', i, name, locks'[name]) {
      var i: nat :| HeldSince(cs, i, name, locks[name]);
      InLog(cs, i, name, locks[name]);
      HeldSinceSnoc(cs, c, i, name, locks[name]);
    }
    forall i: nat, name, locker | HeldSince(cs', i, name, locker) ensures name in locks' && locks'[name] == locker {
      InOlder(cs, c, i, name, locker);
      HeldSinceSnoc(cs, c, i, name, locker);
    }
  }

  lemma InOlder(cs: seq<Command>, c: Command, i: nat, name: Bytes, locker: Bytes)
    requires HeldSince(cs + [c], i, name, locker) && !c.GetLock?
    ensures i < |cs|
  {
    InLog(cs + [c], i, name, locker);
  }

  lemma InLog(cs: seq<Command>, i: nat, name: Bytes, locker: Bytes)
    requires HeldSince(cs, i, name, locker)
    ensures i < |cs| && cs[i] == GetLock(name, locker)
  {
  }

  lemma HeldAfterGet(locks: Locks, cs: seq<Command>, name: Bytes, locker: Bytes)
    requires HeldIn(locks, cs)
    ensures HeldIn(After(locks, GetLock(name, locker)), cs + [GetLock(name, locker)])
  {
    hide HeldSince, Related;
    var c := GetLock(name, locker);
    var (locks', cs') := (After(locks, c), cs + [c]);
    GrantedLast(cs, name, locker);
    FreeOfConflicts(locks, cs, name);
    forall n | n in locks' ensures exists i: nat :: HeldSince(cs', i, n, locks'[n]) {
      if n in locks && locks'[n] == locks[n] {
        var i: nat :| HeldSince(cs, i, n, locks[n]);
        InLog(cs, i, n, locks[n]);
        HeldSinceSnoc(cs, c, i, n, locks[n]);
      } else {
        assert HeldSince(cs', |cs|, name, locker);
      }
    }
    forall i: nat, n, l | HeldSince(cs', i, n, l) ensures n in locks' && locks'[n] == l {
      InLog(cs', i, n, l);
      if i < |cs| {
        HeldSinceSnoc(cs, c, i, n, l);
        Reflexive(n);
      } else {
        assert cs'[i] == c;
      }
    }
  }

  lemma Reflexive(name: Bytes)
    ensures Related(name, name)
  {
  }

  lemma FreeOfConflicts(locks: Locks, cs: seq<Command>, name: Bytes)
    requires HeldIn(locks, cs)
    ensures Conflicts(locks, name) == {} <==> forall j: nat, n, l :: HeldSince(cs, j, n, l) ==> !Related(n, name)
  {
    hide HeldSince, Related;
    if Conflicts(locks, name) == {} {
      forall j: nat, n, l | HeldSince(cs, j, n, l) ensures !Related(n, name) {
        assert n in locks && n !in Conflicts(locks, name);
      }
    } else {
      var k :| k in Conflicts(locks, name);
      var i: nat :| HeldSince(cs, i, k, locks[k]);
    }
  }

  /** In every run a lock is held exactly when a get for it was granted and no release of it came after, and its holder
      is that get's locker; a get is granted when no lock of a related name is held. */
  lemma {:induction false} HeldByHistory(cs: seq<Command>)
    ensures HeldIn(AfterAll(map[], cs), cs)
  {
    hide After;
    if cs == [] {
      hide HeldSince;
      forall i: nat, name, locker | HeldSince(cs, i, name, locker) ensures false {
        InLog(cs, i, name, locker);
      }
    } else {
      var n := |cs| - 1;
      var (locks, c) := (AfterAll(map[], cs[..n]), cs[n]);
      HeldByHistory(cs[..n]);
      assert cs[..n] + [c] == cs;
      if c.GetLock? {
        HeldAfterGet(locks, cs[..n], c.name, c.locker);
      } else {
        HeldAfterOther(locks, cs[..n], c);
      }
    }
  }

  // ---- Names that are not prefixes of each other -----------------------------------------------------

  predicate Incomparable(names: set<Bytes>) {
    forall a, b :: a in names && b in names && a != b ==> !Related(a, b)
  }

  predicate GetsOnly(cs: seq<Command>, names: set<Bytes>) {
    forall i :: 0 <= i < |cs| && cs[i].GetLock? ==> cs[i].name in names
  }

  lemma {:induction false} HeldAreNamed(cs: seq<Command>, names: set<Bytes>)
    requires GetsOnly(cs, names)
    ensures AfterAll(map[], cs).Keys <= names
  {
    if cs != [] {
      HeldAreNamed(cs[..|cs| - 1], names);
    }
  }

  /** Among names that are not prefixes of each other a get has one answer: yes exactly when the lock has not been
      granted to another locker without being released since; and the locker holds the lock afterwards
      exactly when the answer is yes. */
  lemma IncomparableGet(cs: seq<Command>, names: set<Bytes>, name: Bytes, locker: Bytes, ok: bool)
    requires Incomparable(names) && GetsOnly(cs, names) && name in names
    ensures var locks := AfterAll(map[], cs);
            var free := forall i: nat, l :: HeldSince(cs, i, name, l) ==> l == locker;
            && (Answers(locks, GetLock(name, locker), ok) <==> (ok <==> free))
            && var locks' := After(locks, GetLock(name, locker));
               name in locks' && (locks'[name] == locker <==> free)
  {
    hide HeldSince;
    HeldAreNamed(cs, names);
    HeldByHistory(cs);
    var locks := AfterAll(map[], cs);
    assert forall k :: k in locks && Related(k, name) ==> k == name;
    assert name in locks ==> name in Conflicts(locks, name);
    assert forall k :: k in Conflicts(locks, name) ==> k == name;
    if name in locks {
      var i: nat :| HeldSince(cs, i, name, locks[name]);
    }
  }

  const SLASH: Byte := 47

  /** The name of a schema's lock: the schema name and a slash. */
  function SchemaLock(schema: Bytes): Bytes { schema + [SLASH] }

  /** Locks of different schemas are not prefixes of each other as long as schema names have no slash. */
  lemma SchemaLocksUnrelated(a: Bytes, b: Bytes)
    requires SLASH !in a && SLASH !in b
    ensures Related(SchemaLock(a), SchemaLock(b)) <==> a == b
  {
    var x, y := SchemaLock(a), SchemaLock(b);
    assert x[|a|] == SLASH && y[|b|] == SLASH;
    assert x[..|a|] == a && y[..|b|] == b;
    if |a| < |b| {
      assert y[|a|] == b[|a|] && b[|a|] in b;
    } else if |b| < |a| {
      assert x[|b|] == a[|b|] && a[|b|] in a;
    }
  }

  // ---- The machine in place -----------------------------------------------------------------------

  function LockKey(name: Bytes): Bytes { NameKey(LOCKS_TABLE, LOCKS_CLUSTER, name) }

  predicate InLocksTable(k: Bytes) { InTable(LOCKS_TABLE, LOCKS_CLUSTER, k) }

  /** The locks table of the store is the locks: each lock is stored under its key, and everything in
      the range of the table is a stored lock. */
  ghost predicate Persisted(store: Store, locks: Locks) {
    && (forall name :: name in locks ==> LockKey(name) in store && store[LockKey(name)] == locks[name])
    && (forall k :: k in store && InLocksTable(k) ==> exists name :: name in locks && k == LockKey(name))
  }

  lemma PersistSet(store: Store, locks: Locks, name: Bytes, locker: Bytes)
    requires Persisted(store, locks)
    ensures Persisted(store[LockKey(name) := locker], locks[name := locker])
  {
    hide NameKey, InTable;
    forall n | n in locks && n != name ensures LockKey(n) != LockKey(name) {
      if LockKey(n) == LockKey(name) {
        NameKeyInjective(LOCKS_TABLE, LOCKS_CLUSTER, n, name);
      }
    }
    var locks' := locks[name := locker];
    forall k | k in store && InLocksTable(k) ensures exists n :: n in locks' && k == LockKey(n) {
      var n :| n in locks && k == LockKey(n);
      assert n in locks';
    }
    assert name in locks';
  }

  lemma PersistDelete(store: Store, locks: Locks, name: Bytes)
    requires Persisted(store, locks)
    ensures Persisted(store - {LockKey(name)}, locks - {name})
  {
    hide NameKey, InTable;
    forall n | n in locks && n != name ensures LockKey(n) != LockKey(name) {
      if LockKey(n) == LockKey(name) {
        NameKeyInjective(LOCKS_TABLE, LOCKS_CLUSTER, n, name);
      }
    }
    forall k | k in store && k != LockKey(name) && InLocksTable(k)
      ensures exists n :: n in locks - {name} && k == LockKey(n) {
      var n :| n in locks && k == LockKey(n);
      assert n in locks - {name};
    }
  }

  lemma PersistLastIndex(store: Store, locks: Locks, v: Bytes)
    requires Persisted(store, locks)
    ensures Persisted(store[TablePrefix(LAST_LOG_INDEX_TABLE, LOCKS_CLUSTER) := v], locks)
  {
    hide NameKey, InTable, TablePrefix;
    var last := TablePrefix(LAST_LOG_INDEX_TABLE, LOCKS_CLUSTER);
    PrefixNotInTable(LOCKS_TABLE, LAST_LOG_INDEX_TABLE, LOCKS_CLUSTER);
    forall n | n in locks ensures LockKey(n) != last {
      NameKeyInTable(LOCKS_TABLE, LOCKS_CLUSTER, n);
    }
  }

  /** What a scan of the locks table returns: every stored pair in the range, each once. */
  ghost predicate IsScan(kvs: seq<(Bytes, Bytes)>, store: Store) {
    && (forall i :: 0 <= i < |kvs| ==> InLocksTable(kvs[i].0) && kvs[i].0 in store && store[kvs[i].0] == kvs[i].1)
    && (forall k :: k in store && InLocksTable(k) ==> exists i :: 0 <= i < |kvs| && kvs[i].0 == k)
    && (forall i, j :: 0 <= i < j < |kvs| ==> kvs[i].0 != kvs[j].0)
  }

  class LocksStateMachine {
    var locks: Locks
    var store: Store

    constructor ()
      ensures locks == map[] && store == map[] && Persisted(store, locks)
    {
      locks, store := map[], map[];
    }

    /** The loop over the held locks, in any order. */
    method FindConflict(name: Bytes, locker: Bytes) returns (held: bool, ok: bool)
      ensures held <==> Conflicts(locks, name) != {}
      ensures held ==> Answers(locks, GetLock(name, locker), ok)
    {
      held, ok := false, false;
      var todo := locks.Keys;
      ghost var last: Bytes := [];
      while todo != {}
        invariant todo <= locks.Keys
        invariant !held ==> forall k :: k in locks.Keys - todo ==> !Related(k, name)
        invariant held ==> last in Conflicts(locks, name) && (ok <==> locks[last] == locker)
        decreases |todo|
      {
        var k :| k in todo;
        if name <= k || k <= name {
          ok := locker == locks[k];
          held := true;
          last := k;
        }
        todo := todo - {k};
      }
      if held {
        assert last in Conflicts(locks, name);
      } else {
        assert forall k :: k in locks ==> !Related(k, name);
      }
    }

    /** One entry: the answer, and what it adds to the batch. */
    method UpdateOne(c: Command, batch: StoreBatch) returns (batch': StoreBatch, ok: bool)
      requires !c.UnknownCommand? && Persisted(Commit(store, batch), locks)
      modifies this`locks
      ensures locks == After(old(locks), c) && Answers(old(locks), c, ok)
      ensures c.ReleaseLock? ==> ok && c.name !in locks
      ensures c.GetLock? && (forall k :: k in old(locks) ==> !Related(k, c.name)) ==>
                ok && c.name in locks && locks[c.name] == c.locker
      ensures Persisted(Commit(store, batch'), locks)
    {
      hide Commit, Persisted;
      batch' := batch;
      match c {
        case GetLock(name, locker) =>
          var held;
          held, ok := FindConflict(name, locker);
          if !held {
            locks := locks[name := locker];
            batch' := batch[LockKey(name) := Some(locker)];
            ok := true;
            CommitSet(store, batch, LockKey(name), locker);
            PersistSet(Commit(store, batch), old(locks), name, locker);
          }
        case ReleaseLock(name, _) =>
          ok := true;
          if name !in locks {
            assert locks - {name} == locks;
          } else {
            locks := locks - {name};
            batch' := batch[LockKey(name) := None];
            CommitDelete(store, batch, LockKey(name));
            PersistDelete(Commit(store, batch), old(locks), name);
          }
      }
    }

    /** A batch of entries: answers and locks are those of applying them one by one, and the store holds
        the same locks afterwards. An unknown command is an error and leaves the store alone. */
    method Update(entries: seq<Command>, lastIndex: Bytes) returns (r: Result<seq<bool>>)
      requires Persisted(store, locks)
      modifies this
      ensures r.Err? <==> exists i :: 0 <= i < |entries| && entries[i].UnknownCommand?
      ensures r.Err? ==> store == old(store)
      ensures r.Ok? ==>
        Persisted(store, locks) && locks == AfterAll(old(locks), entries) && AnswersAll(old(locks), entries, r.value)
    {
      hide Persisted, Commit, Answers, After;
      var batch: StoreBatch := map[];
      CommitNothing(store);
      var answers: seq<bool> := [];
      for i := 0 to |entries|
        invariant store == old(store) && Persisted(Commit(store, batch), locks)
        invariant locks == AfterAll(old(locks), entries[..i]) && |answers| == i
        invariant forall k :: 0 <= k < i ==>
          !entries[k].UnknownCommand? && Answers(AfterAll(old(locks), entries[..k]), entries[k], answers[k])
      {
        if entries[i].UnknownCommand? {
          return Err;
        }
        var ok;
        batch, ok := UpdateOne(entries[i], batch);
        answers := answers + [ok];
        assert entries[..i + 1][..i] == entries[..i];
      }
      assert entries[..|entries|] == entries;
      var key := TablePrefix(LAST_LOG_INDEX_TABLE, LOCKS_CLUSTER);
      CommitSet(store, batch, key, lastIndex);
      PersistLastIndex(Commit(store, batch), locks, lastIndex);
      store := Commit(store, batch[key := Some(lastIndex)]);
      return Ok(answers);
    }

    /** Opening and recovering read the table back: the locks come out as they were. */
    method LoadLocks(kvs: seq<(Bytes, Bytes)>, ghost held: Locks) returns (ok: bool)
      requires IsScan(kvs, store) && Persisted(store, held)
      modifies this`locks
      ensures ok && locks == held
    {
      hide LockKey, Persisted, IsScan;
      locks := map[];
      for i := 0 to |kvs|
        invariant forall name :: name in locks ==> name in held && locks[name] == held[name]
        invariant forall name, k :: name in held && 0 <= k < i && kvs[k].0 == LockKey(name) ==> name in locks
      {
        ghost var name := ScannedName(kvs, store, held, i);
        var r := StringKeys.KeyDecodeString(kvs[i].0, 16);
        locks := locks[r.value.0 := kvs[i].1];
      }
      forall name | name in held ensures name in locks {
        var i := ScannedAt(kvs, store, held, name);
      }
      return true;
    }
  }

  /** A scanned pair is the key and locker of one held lock. */
  lemma ScannedName(kvs: seq<(Bytes, Bytes)>, store: Store, held: Locks, i: nat) returns (name: Bytes)
    requires IsScan(kvs, store) && Persisted(store, held) && i < |kvs|
    ensures name in held && kvs[i] == (LockKey(name), held[name])
    ensures |kvs[i].0| >= 16 && StringKeys.DecodeString(kvs[i].0, 16) == Ok((name, |kvs[i].0|))
    ensures forall n :: n in held && LockKey(n) == kvs[i].0 ==> n == name
  {
    hide NameKey, InTable;
    assert InLocksTable(kvs[i].0) && kvs[i].0 in store;
    name :| name in held && kvs[i].0 == LockKey(name);
    KeyDecodes(name);
    forall n | n in held && LockKey(n) == kvs[i].0 ensures n == name {
      NameKeyInjective(LOCKS_TABLE, LOCKS_CLUSTER, n, name);
    }
  }

  lemma KeyDecodes(name: Bytes)
    ensures |LockKey(name)| >= 16 && StringKeys.DecodeString(LockKey(name), 16) == Ok((name, |LockKey(name)|))
  {
    NameKeyDecodes(LOCKS_TABLE, LOCKS_CLUSTER, name);
  }

  /** Every held lock is scanned. */
  lemma ScannedAt(kvs: seq<(Bytes, Bytes)>, store: Store, held: Locks, name: Bytes) returns (i: nat)
    requires IsScan(kvs, store) && Persisted(store, held) && name in held
    ensures i < |kvs| && kvs[i].0 == LockKey(name)
  {
    hide NameKey, InTable;
    NameKeyInTable(LOCKS_TABLE, LOCKS_CLUSTER, name);
    i :| 0 <= i < |kvs| && kvs[i].0 == LockKey(name);
  }
}
