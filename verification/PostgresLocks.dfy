/** Postgres non-overwriting writes: one transaction per session, one advisory lock per key, taken in the
    order of the keys and held until commit. */
module PostgresLocks {
  import opened Basics
  import opened Stores

  /** `order` is the position of a key in the database's sort order, `hash` the lock a key maps to. */
  datatype Env = Env(order: Key -> int, hash: Key -> int)

  /** Of the keys in play, those with the same position are the same key. */
  ghost predicate TotalOrder(env: Env, keys: set<Key>) {
    forall a, b :: a in keys && b in keys && env.order(a) == env.order(b) ==> a == b
  }

  /** The rows of the lock query: every key once, sorted. */
  ghost predicate IsPlan(env: Env, plan: seq<Key>, keys: set<Key>) {
    && (forall i, j :: 0 <= i < j < |plan| ==> env.order(plan[i]) < env.order(plan[j]))
    && (forall k :: k in plan <==> k in keys)
  }

  /** `stale`: a write that takes no lock changed a key of this transaction after its flags were read. */
  datatype Session =
    | Idle
    | Locking(items: Store, strategy: Strategy, plan: seq<Key>, held: nat)
    | Resolving(items: Store, strategy: Strategy, plan: seq<Key>,
                conflicts: set<Key>, got: map<Key, Value>, stale: bool)

  datatype System = System(data: Store, sessions: seq<Session>)

  datatype Action =
    | Begin(c: nat, items: Store, strategy: Strategy, plan: seq<Key>)
    | Acquire(c: nat)
    | ReadFlags(c: nat)
    | ReadValue(c: nat, key: Key)
    | Commit(c: nat)
    | OverwriteMany(c: nat, items: Store)     // takes no lock
    | DeleteMany(c: nat, keys: set<Key>)      // takes no lock

  datatype Event =
    | Silent
    | Wrote(items: Store, strategy: Strategy, stale: bool)
    | Raised(items: Store, conflicts: set<Key>)
    | Overwrote(items: Store)
    | Deleted(keys: set<Key>)

  /** How many keys of its plan a session has locked; once all are locked they stay so until it ends. */
  function Held(w: Session): nat {
    match w
    case Idle => 0
    case Locking(_, _, plan, held) => held
    case Resolving(_, _, plan, _, _, _) => |plan|
  }

  predicate Holds(env: Env, w: Session, lock: int) {
    !w.Idle? && exists i :: 0 <= i < Held(w) && i < |w.plan| && env.hash(w.plan[i]) == lock
  }

  predicate Waiting(w: Session) {
    w.Locking? && w.held < |w.plan|
  }

  function NextLock(env: Env, w: Session): int
    requires Waiting(w)
  {
    env.hash(w.plan[w.held])
  }

  /** Session u makes session w wait. Locks are reentrant, so nobody waits for itself. */
  predicate Blocks(env: Env, s: System, u: nat, w: nat) {
    && u < |s.sessions| && w < |s.sessions| && u != w
    && Waiting(s.sessions[w]) && Holds(env, s.sessions[u], NextLock(env, s.sessions[w]))
  }

  predicate Blocked(env: Env, s: System, w: nat) {
    exists u :: 0 <= u < |s.sessions| && Blocks(env, s, u, w)
  }

  function Become(s: System, c: nat, w: Session): System
    requires c < |s.sessions|
  {
    s.(sessions := s.sessions[c := w])
  }

  /** The transaction can commit once a merge has read all its conflicts. */
  predicate Ready(w: Session) {
    w.Resolving? && (w.strategy == Merge ==> w.got.Keys == w.conflicts)
  }

  /** A write without locks makes the reads of open transactions on its keys stale. */
  function Disturb(w: Session, touched: set<Key>): Session {
    if w.Resolving? && w.items.Keys * touched != {} then w.(stale := true) else w
  }

  function Unlocked(s: System, data: Store, touched: set<Key>): System {
    System(data, seq(|s.sessions|, i requires 0 <= i < |s.sessions| => Disturb(s.sessions[i], touched)))
  }

  function FlagsStep(s: System, c: nat, w: Session): (System, Event)
    requires c < |s.sessions| && w.Locking?
  {
    var conflicts := w.items.Keys * s.data.Keys;
    if w.strategy == Raise && conflicts != {} then (Become(s, c, Idle), Raised(w.items, conflicts))
    else (Become(s, c, Resolving(w.items, w.strategy, w.plan, conflicts, map[], false)), Silent)
  }

  /** An action that does not fit the state of its session, or that has to wait, is not taken. */
  ghost function Step(env: Env, s: System, a: Action): (System, Event) {
    if a.c >= |s.sessions| then (s, Silent)
    else
      var w := s.sessions[a.c];
      match a
      case Begin(c, items, strategy, plan) =>
        if w.Idle? && items != map[] && strategy != Overwrite && IsPlan(env, plan, items.Keys)
        then (Become(s, c, Locking(items, strategy, plan, 0)), Silent) else (s, Silent)
      case Acquire(c) =>
        if Waiting(w) && !Blocked(env, s, c)
        then (Become(s, c, w.(held := w.held + 1)), Silent) else (s, Silent)
      case ReadFlags(c) => if w.Locking? && !Waiting(w) then FlagsStep(s, c, w) else (s, Silent)
      case ReadValue(c, key) =>
        if w.Resolving? && w.strategy == Merge && key in w.conflicts
        then (Become(s, c, w.(got := w.got[key := if key in s.data then s.data[key] else map[]])), Silent)
        else (s, Silent)
      case Commit(c) =>
        if Ready(w)
        then (Become(s.(data := s.data + ToWrite(w.items, w.strategy, w.conflicts, w.got)), c, Idle),
              Wrote(w.items, w.strategy, w.stale))
        else (s, Silent)
      case OverwriteMany(c, items) =>
        if w.Idle? then (Unlocked(s, s.data + items, items.Keys), Overwrote(items)) else (s, Silent)
      case DeleteMany(c, keys) =>
        if w.Idle? then (Unlocked(s, s.data - keys, keys), Deleted(keys)) else (s, Silent)
  }

  ghost function Run(env: Env, s: System, schedule: seq<Action>): (System, seq<Event>)
    decreases |schedule|
  {
    if schedule == [] then (s, [])
    else
      var (s1, event) := Step(env, s, schedule[0]);
      var (s2, events) := Run(env, s1, schedule[1..]);
      (s2, [event] + events)
  }

  // ---- invariants ----

  ghost predicate Planned(env: Env, w: Session) {
    w.Idle? || (IsPlan(env, w.plan, w.items.Keys) && w.items != map[] && w.strategy != Overwrite
                && Held(w) <= |w.plan|)
  }

  /** An undisturbed transaction has read what the table holds. */
  ghost predicate ReadsAreCurrent(data: Store, w: Session) {
    w.Resolving? ==>
      && (w.strategy == Raise ==> w.conflicts == {})
      && w.got.Keys <= w.conflicts <= w.items.Keys
      && (!w.stale ==> w.conflicts == w.items.Keys * data.Keys
                       && forall k :: k in w.got ==> w.got[k] == data[k])
  }

  /** No lock has two holders. */
  ghost predicate Exclusive(env: Env, s: System) {
    forall u, w, lock ::
      (0 <= u < |s.sessions| && 0 <= w < |s.sessions|
       && Holds(env, s.sessions[u], lock) && Holds(env, s.sessions[w], lock)) ==> u == w
  }

  ghost predicate Inv(env: Env, s: System) {
    && (forall i :: 0 <= i < |s.sessions| ==> Planned(env, s.sessions[i]) && ReadsAreCurrent(s.data, s.sessions[i]))
    && Exclusive(env, s)
  }

  ghost predicate Start(s: System) {
    forall i :: 0 <= i < |s.sessions| ==> s.sessions[i] == Idle
  }

  /** A session that keeps or gives up locks cannot break exclusion. */
  lemma FewerLocksStayExclusive(env: Env, s: System, s': System)
    requires Exclusive(env, s) && |s'.sessions| == |s.sessions|
    requires forall i, lock :: 0 <= i < |s.sessions| && Holds(env, s'.sessions[i], lock) ==>
               Holds(env, s.sessions[i], lock)
    ensures Exclusive(env, s')
  {
  }

  lemma AcquireStaysExclusive(env: Env, s: System, c: nat)
    requires Inv(env, s) && c < |s.sessions| && Waiting(s.sessions[c]) && !Blocked(env, s, c)
    ensures Exclusive(env, Become(s, c, s.sessions[c].(held := s.sessions[c].held + 1)))
  {
    var w := s.sessions[c];
    var w' := w.(held := w.held + 1);
    var s' := Become(s, c, w');
    forall lock | Holds(env, w', lock) ensures lock == NextLock(env, w) || Holds(env, w, lock) {
    }
    forall u, v, lock | 0 <= u < |s.sessions| && 0 <= v < |s.sessions|
                        && Holds(env, s'.sessions[u], lock) && Holds(env, s'.sessions[v], lock)
      ensures u == v
    {
      if u != v && (u == c || v == c) {
        var other := if u == c then v else u;
        if lock == NextLock(env, w) {
          assert Blocks(env, s, other, c);
        }
      }
    }
  }

  /** Sessions on a common key have a common lock, so other open transactions are on other keys. */
  lemma OpenTransactionsAreDisjoint(env: Env, s: System, u: nat, w: nat)
    requires Inv(env, s) && u < |s.sessions| && w < |s.sessions| && u != w
    requires s.sessions[u].Resolving? && s.sessions[w].Resolving?
    ensures s.sessions[u].items.Keys * s.sessions[w].items.Keys == {}
  {
    forall k | k in s.sessions[u].items && k in s.sessions[w].items
      ensures false
    {
      HoldsEveryKey(env, s.sessions[u], k);
      HoldsEveryKey(env, s.sessions[w], k);
    }
  }

  lemma HoldsEveryKey(env: Env, w: Session, k: Key)
    requires Planned(env, w) && w.Resolving? && k in w.items
    ensures Holds(env, w, env.hash(k))
  {
    assert k in w.plan;
    var i :| 0 <= i < |w.plan| && w.plan[i] == k;
  }

  // ---- committed effects are sequential ----

  /** How an event must change the table if calls ran one at a time. */
  ghost predicate Alone(before: Store, event: Event, after: Store) {
    match event
    case Silent => after == before
    case Wrote(items, strategy, _) => SetMany(before, items, strategy) == (after, Written)
    case Raised(items, conflicts) =>
      after == before && SetMany(before, items, Raise) == (before, KeyError(conflicts))
    case Overwrote(items) => SetMany(before, items, Overwrite) == (after, Written)
    case Deleted(keys) => after == before - keys
  }

  /** The same, except that nothing is said about a transaction a lock-free write disturbed. */
  ghost predicate Sequential(before: Store, event: Event, after: Store) {
    (event.Wrote? && event.stale) || Alone(before, event, after)
  }

  lemma CommitIsSequential(env: Env, s: System, c: nat)
    requires Inv(env, s) && c < |s.sessions| && Ready(s.sessions[c])
    ensures var (s', event) := Step(env, s, Commit(c));
            Inv(env, s') && Sequential(s.data, event, s'.data)
  {
    var w := s.sessions[c];
    var toWrite := ToWrite(w.items, w.strategy, w.conflicts, w.got);
    if !w.stale {
      ToWriteIsEffect(s.data, w.items, w.strategy, w.conflicts, w.got);
    }
    var s' := Step(env, s, Commit(c)).0;
    forall i | 0 <= i < |s'.sessions|
      ensures Planned(env, s'.sessions[i]) && ReadsAreCurrent(s'.data, s'.sessions[i])
    {
      if i != c && s.sessions[i].Resolving? {
        OpenTransactionsAreDisjoint(env, s, i, c);
        ReadsElsewhere(s.data, s'.data, s.sessions[i], w.items.Keys);
      }
    }
    FewerLocksStayExclusive(env, s, s');
  }

  lemma ReadsElsewhere(data: Store, data': Store, w: Session, touched: set<Key>)
    requires ReadsAreCurrent(data, w) && w.Resolving? && w.items.Keys * touched == {}
    requires forall k :: k !in touched ==> (k in data <==> k in data') && (k in data ==> data[k] == data'[k])
    ensures ReadsAreCurrent(data', w)
  {
    assert forall k :: k in w.items ==> k !in touched by {
      assert forall k :: k in w.items && k in touched ==> k in w.items.Keys * touched;
    }
    assert w.items.Keys * data.Keys == w.items.Keys * data'.Keys;
  }

  lemma UnlockedKeepsInv(env: Env, s: System, data: Store, touched: set<Key>)
    requires Inv(env, s)
    requires forall k :: k !in touched ==> (k in s.data <==> k in data) && (k in data ==> s.data[k] == data[k])
    ensures Inv(env, Unlocked(s, data, touched))
  {
    var s' := Unlocked(s, data, touched);
    forall i | 0 <= i < |s'.sessions|
      ensures Planned(env, s'.sessions[i]) && ReadsAreCurrent(s'.data, s'.sessions[i])
    {
      if s.sessions[i].Resolving? && s.sessions[i].items.Keys * touched == {} {
        ReadsElsewhere(s.data, data, s.sessions[i], touched);
      }
    }
    FewerLocksStayExclusive(env, s, s');
  }

  /** Steps that only change the session of one transaction and take no new lock. */
  lemma QuietStepKeepsInv(env: Env, s: System, c: nat, w': Session)
    requires Inv(env, s) && c < |s.sessions|
    requires Planned(env, w') && ReadsAreCurrent(s.data, w')
    requires forall lock :: Holds(env, w', lock) ==> Holds(env, s.sessions[c], lock)
    ensures Inv(env, Become(s, c, w'))
  {
    FewerLocksStayExclusive(env, s, Become(s, c, w'));
  }

  lemma BeginStep(env: Env, s: System, a: Action)
    requires Inv(env, s) && a.c < |s.sessions| && a.Begin?
    ensures Inv(env, Step(env, s, a).0) && Sequential(s.data, Step(env, s, a).1, Step(env, s, a).0.data)
  {
    if s.sessions[a.c].Idle? && a.items != map[] && a.strategy != Overwrite && IsPlan(env, a.plan, a.items.Keys) {
      QuietStepKeepsInv(env, s, a.c, Locking(a.items, a.strategy, a.plan, 0));
    }
  }

  lemma AcquireStep(env: Env, s: System, a: Action)
    requires Inv(env, s) && a.c < |s.sessions| && a.Acquire?
    ensures Inv(env, Step(env, s, a).0) && Sequential(s.data, Step(env, s, a).1, Step(env, s, a).0.data)
  {
    if Waiting(s.sessions[a.c]) && !Blocked(env, s, a.c) {
      AcquireStaysExclusive(env, s, a.c);
    }
  }

  lemma FlagsStepKeepsInv(env: Env, s: System, a: Action)
    requires Inv(env, s) && a.c < |s.sessions| && a.ReadFlags?
    ensures Inv(env, Step(env, s, a).0) && Sequential(s.data, Step(env, s, a).1, Step(env, s, a).0.data)
  {
    var w := s.sessions[a.c];
    if w.Locking? && !Waiting(w) {
      var conflicts := w.items.Keys * s.data.Keys;
      if w.strategy == Raise && conflicts != {} {
        QuietStepKeepsInv(env, s, a.c, Idle);
      } else {
        QuietStepKeepsInv(env, s, a.c, Resolving(w.items, w.strategy, w.plan, conflicts, map[], false));
      }
    }
  }

  lemma ValueStepKeepsInv(env: Env, s: System, a: Action)
    requires Inv(env, s) && a.c < |s.sessions| && a.ReadValue?
    ensures Inv(env, Step(env, s, a).0) && Sequential(s.data, Step(env, s, a).1, Step(env, s, a).0.data)
  {
    var w := s.sessions[a.c];
    if w.Resolving? && w.strategy == Merge && a.key in w.conflicts {
      var w' := w.(got := w.got[a.key := if a.key in s.data then s.data[a.key] else map[]]);
      assert w'.got.Keys == w.got.Keys + {a.key};
      QuietStepKeepsInv(env, s, a.c, w');
    }
  }

  lemma UnlockedStep(env: Env, s: System, a: Action)
    requires Inv(env, s) && a.c < |s.sessions| && (a.OverwriteMany? || a.DeleteMany?)
    ensures Inv(env, Step(env, s, a).0) && Sequential(s.data, Step(env, s, a).1, Step(env, s, a).0.data)
  {
    if a.OverwriteMany? {
      OverwriteEffect(s.data, a.items);
      UnlockedKeepsInv(env, s, s.data + a.items, a.items.Keys);
    } else {
      UnlockedKeepsInv(env, s, s.data - a.keys, a.keys);
    }
  }

  /** Every commit and every KeyError is the sequential result on the table just before it, for every
      transaction that no lock-free write disturbed. */
  lemma StepIsSequential(env: Env, s: System, a: Action)
    requires Inv(env, s)
    ensures Inv(env, Step(env, s, a).0) && Sequential(s.data, Step(env, s, a).1, Step(env, s, a).0.data)
  {
    if a.c < |s.sessions| {
      match a
      case Begin(_, _, _, _) => BeginStep(env, s, a);
      case Acquire(_) => AcquireStep(env, s, a);
      case ReadFlags(_) => FlagsStepKeepsInv(env, s, a);
      case ReadValue(_, _) => ValueStepKeepsInv(env, s, a);
      case Commit(c) => if Ready(s.sessions[c]) { CommitIsSequential(env, s, c); }
      case OverwriteMany(_, _) => UnlockedStep(env, s, a);
      case DeleteMany(_, _) => UnlockedStep(env, s, a);
    }
  }

  /** The table after an event executed on its own. */
  function Apply(store: Store, event: Event): Store {
    match event
    case Silent => store
    case Wrote(items, strategy, _) => SetMany(store, items, strategy).0
    case Raised(_, _) => store
    case Overwrote(items) => store + items
    case Deleted(keys) => store - keys
  }

  function Replay(store: Store, events: seq<Event>): Store
    decreases |events|
  {
    if events == [] then store else Replay(Apply(store, events[0]), events[1..])
  }

  /** Executed one at a time in this order, every event turns out as it was observed: writes succeed, errors
      name the same keys. */
  ghost predicate Explains(store: Store, events: seq<Event>)
    decreases |events|
  {
    events == [] || (Alone(store, events[0], Apply(store, events[0])) && Explains(Apply(store, events[0]), events[1..]))
  }

  ghost predicate Undisturbed(events: seq<Event>) {
    forall e :: e in events ==> e.Wrote? ==> !e.stale
  }

  /** Serializability over whole runs: without disturbed transactions, the calls executed one at a time in
      commit order have the outcomes they had and leave the same table. */
  lemma {:induction false} RunsAreSerial(env: Env, s: System, schedule: seq<Action>)
    requires Inv(env, s)
    ensures var (s', events) := Run(env, s, schedule);
            Inv(env, s') && (Undisturbed(events) ==> Explains(s.data, events) && s'.data == Replay(s.data, events))
    decreases |schedule|
  {
    if schedule != [] {
      var (s1, event) := Step(env, s, schedule[0]);
      StepIsSequential(env, s, schedule[0]);
      RunsAreSerial(env, s1, schedule[1..]);
      if Undisturbed([event] + Run(env, s1, schedule[1..]).1) {
        OneMoreEvent(s.data, s1.data, event, Run(env, s1, schedule[1..]).1);
      }
    }
  }

  lemma OneMoreEvent(before: Store, after: Store, event: Event, events: seq<Event>)
    requires Sequential(before, event, after) && Undisturbed([event] + events)
    ensures Undisturbed(events)
    ensures Explains(after, events) ==> Explains(before, [event] + events)
    ensures Replay(before, [event] + events) == Replay(after, events)
  {
    assert ([event] + events)[1..] == events;
    assert event in [event] + events;
    assert forall e :: e in events ==> e in [event] + events;
    assert after == Apply(before, event);
  }

  /** Lock-taking writes use only the keys `locked`, lock-free writes and deletes only the keys `free`. */
  ghost predicate UsesKeys(schedule: seq<Action>, locked: set<Key>, free: set<Key>) {
    forall a :: a in schedule ==>
      match a
      case Begin(_, items, _, _) => items.Keys <= locked
      case OverwriteMany(_, items) => items.Keys <= free
      case DeleteMany(_, keys) => keys <= free
      case _ => true
  }

  ghost predicate UndisturbedOn(s: System, locked: set<Key>) {
    forall i :: 0 <= i < |s.sessions| && !s.sessions[i].Idle? ==>
      s.sessions[i].items.Keys <= locked && (s.sessions[i].Resolving? ==> !s.sessions[i].stale)
  }

  /** Lock-free writes on other keys disturb nobody. */
  lemma {:induction false} ApartRunsAreUndisturbed(env: Env, s: System, schedule: seq<Action>,
                                                locked: set<Key>, free: set<Key>)
    requires locked * free == {} && UsesKeys(schedule, locked, free) && UndisturbedOn(s, locked)
    ensures Undisturbed(Run(env, s, schedule).1)
    decreases |schedule|
  {
    if schedule != [] {
      assert schedule[0] in schedule;
      var (s1, event) := Step(env, s, schedule[0]);
      ApartStepIsUndisturbed(env, s, schedule[0], locked, free);
      assert forall a :: a in schedule[1..] ==> a in schedule;
      ApartRunsAreUndisturbed(env, s1, schedule[1..], locked, free);
    }
  }

  lemma ApartStepIsUndisturbed(env: Env, s: System, a: Action, locked: set<Key>, free: set<Key>)
    requires locked * free == {} && UsesKeys([a], locked, free) && UndisturbedOn(s, locked)
    ensures var (s1, event) := Step(env, s, a);
            UndisturbedOn(s1, locked) && (event.Wrote? ==> !event.stale)
  {
    assert a in [a];
    if a.OverwriteMany? || a.DeleteMany? {
      var touched := if a.OverwriteMany? then a.items.Keys else a.keys;
      forall i | 0 <= i < |s.sessions| && !s.sessions[i].Idle?
        ensures s.sessions[i].items.Keys * touched == {}
      {
        assert s.sessions[i].items.Keys * touched <= locked * free;
      }
    }
  }

  ghost predicate AlwaysSerial(env: Env, locked: set<Key>, free: set<Key>) {
    forall s, schedule :: Start(s) && UsesKeys(schedule, locked, free) ==>
      IsSerial(s.data, Run(env, s, schedule))
  }

  /** The run's events, one at a time in commit order, have the same outcomes and give the same table. */
  ghost predicate IsSerial(store: Store, run: (System, seq<Event>)) {
    Explains(store, run.1) && run.0.data == Replay(store, run.1)
  }

  /** Every run is serial in commit order exactly when no key is written both with and without a lock. */
  lemma SerialExactlyWhenKeysApart(env: Env, locked: set<Key>, free: set<Key>)
    ensures AlwaysSerial(env, locked, free) <==> locked * free == {}
  {
    if locked * free == {} {
      forall s, schedule | Start(s) && UsesKeys(schedule, locked, free)
        ensures IsSerial(s.data, Run(env, s, schedule))
      {
        assert Inv(env, s);
        RunsAreSerial(env, s, schedule);
        ApartRunsAreUndisturbed(env, s, schedule, locked, free);
      }
    } else {
      var k :| k in locked * free;
      SharedKeyIsNotSerial(env, k, locked, free);
    }
  }

  lemma SharedKeyIsNotSerial(env: Env, k: Key, locked: set<Key>, free: set<Key>)
    requires k in locked && k in free
    ensures !AlwaysSerial(env, locked, free)
  {
    var start: Store, merge: Store, other: Store :=
      map[k := map["x" := Null]], map[k := map["y" := Null]], map[k := map[]];
    var a := [Begin(0, merge, Merge, [k]), Acquire(0), ReadFlags(0), ReadValue(0, k),
              OverwriteMany(1, other), Commit(0)];
    SerialNeverOvertakes(env, start, a, k, merge, other, "x", locked, free);
  }

  lemma SerialNeverOvertakes(env: Env, start: Store, a: seq<Action>, k: Key, merge: Store, other: Store, f: Field,
                             locked: set<Key>, free: set<Key>)
    requires start.Keys == merge.Keys == other.Keys == {k} && Overtaken(a, k, merge, other)
    requires f in start[k] && f !in merge[k] && f !in other[k] && k in locked && k in free
    ensures !AlwaysSerial(env, locked, free)
  {
    OvertakenIsNotSerial(env, start, a, k, merge, other, f);
    OvertakenUsesKey(a, k, merge, other, locked, free);
    assert Start(System(start, [Idle, Idle]));
  }

  lemma OvertakenUsesKey(a: seq<Action>, k: Key, merge: Store, other: Store, locked: set<Key>, free: set<Key>)
    requires merge.Keys == other.Keys == {k} && Overtaken(a, k, merge, other) && k in locked && k in free
    ensures UsesKeys(a, locked, free)
  {
    assert a == [a[0], a[1], a[2], a[3], a[4], a[5]];
  }

  lemma OvertakenIsNotSerial(env: Env, start: Store, a: seq<Action>, k: Key, merge: Store, other: Store, f: Field)
    requires start.Keys == merge.Keys == other.Keys == {k} && Overtaken(a, k, merge, other)
    requires f in start[k] && f !in merge[k] && f !in other[k]
    ensures var (end, events) := Run(env, System(start, [Idle, Idle]), a);
            end.data != Replay(start, events)
  {
    var (end, events) := Run(env, System(start, [Idle, Idle]), a);
    OvertakenRun(env, start, a, k, merge, other);
    assert f in end.data[k];
    OvertakenEvents(env, start, a, k, merge, other);
    OverwriteEffect(start, other);
    OrdersKeepTheOverwrite(start, k, merge, other);
    assert f !in Replay(start, events)[k];
  }

  /** A merge of k, with an overwrite of k by another session between its reads and its commit. */
  ghost predicate Overtaken(a: seq<Action>, k: Key, merge: Store, other: Store) {
    && |a| == 6 && a[0] == Begin(0, merge, Merge, [k]) && a[1] == Acquire(0) && a[2] == ReadFlags(0)
    && a[3] == ReadValue(0, k) && a[4] == OverwriteMany(1, other) && a[5] == Commit(0)
  }

  lemma OvertakenRun(env: Env, start: Store, a: seq<Action>, k: Key, merge: Store, other: Store)
    requires start.Keys == merge.Keys == other.Keys == {k} && Overtaken(a, k, merge, other)
    ensures Run(env, System(start, [Idle, Idle]), a).0.data == (start + other) + map[k := start[k] + merge[k]]
  {
    var s0 := System(start, [Idle, Idle]);
    RunSix(env, s0, a);
    MergeReads(env, s0, k, merge);
    OvertakenMerge(env, AfterReads(s0, k, merge), k, merge, other);
  }

  /** In commit order the overwrite comes first and the merge on top of it. */
  lemma OvertakenEvents(env: Env, start: Store, a: seq<Action>, k: Key, merge: Store, other: Store)
    requires start.Keys == merge.Keys == other.Keys == {k} && Overtaken(a, k, merge, other)
    ensures Replay(start, Run(env, System(start, [Idle, Idle]), a).1) == SetMany(start + other, merge, Merge).0
  {
    var s0 := System(start, [Idle, Idle]);
    OvertakenTail(a, k, merge, other);
    ReplayOfReads(env, s0, a, k, merge);
    OverwriteThenCommit(env, AfterReads(s0, k, merge), k, merge, other);
  }

  lemma OvertakenTail(a: seq<Action>, k: Key, merge: Store, other: Store)
    requires Overtaken(a, k, merge, other)
    ensures a[4..] == [OverwriteMany(1, other)] + [Commit(0)]
  {
  }

  lemma OverwriteThenCommit(env: Env, s: System, k: Key, merge: Store, other: Store)
    requires |s.sessions| == 2 && s.sessions[1] == Idle && k in s.data && k in merge
    requires s.sessions[0] == Resolving(merge, Merge, [k], {k}, map[k := s.data[k]], false)
    ensures Replay(s.data, Run(env, s, [OverwriteMany(1, other)] + [Commit(0)]).1)
         == SetMany(s.data + other, merge, Merge).0
  {
    var next := Unlocked(s, s.data + other, other.Keys);
    OverwriteStep(env, s, 1, other);
    FirstReplayStep(env, s, OverwriteMany(1, other), [Commit(0)], s.data);
    DisturbedMerge(s.sessions[0], k, merge, s.data[k], other.Keys);
    CommitAlone(env, next, merge, s.data + other);
  }

  lemma DisturbedMerge(w: Session, k: Key, merge: Store, v: Value, touched: set<Key>)
    requires w == Resolving(merge, Merge, [k], {k}, map[k := v], false)
    ensures var d := Disturb(w, touched);
            Ready(d) && d.items == merge && d.strategy == Merge
  {
  }

  lemma FirstReplayStep(env: Env, s: System, first: Action, rest: seq<Action>, store: Store)
    ensures var (s1, event) := Step(env, s, first);
            Replay(store, Run(env, s, [first] + rest).1) == Replay(Apply(store, event), Run(env, s1, rest).1)
  {
    assert ([first] + rest)[1..] == rest;
    ReplayStep(env, s, [first] + rest, store);
  }

  lemma OverwriteStep(env: Env, s: System, c: nat, items: Store)
    requires c < |s.sessions| && s.sessions[c] == Idle
    ensures Step(env, s, OverwriteMany(c, items)) == (Unlocked(s, s.data + items, items.Keys), Overwrote(items))
  {
  }

  lemma CommitAlone(env: Env, s: System, merge: Store, store: Store)
    requires |s.sessions| > 0 && Ready(s.sessions[0]) && s.sessions[0].items == merge && s.sessions[0].strategy == Merge
    ensures Replay(store, Run(env, s, [Commit(0)]).1) == SetMany(store, merge, Merge).0
  {
    ReplayStep(env, s, [Commit(0)], store);
    assert [Commit(0)][1..] == [];
    CommitIsMerge(env, s, merge);
  }

  lemma CommitIsMerge(env: Env, s: System, merge: Store)
    requires |s.sessions| > 0 && Ready(s.sessions[0]) && s.sessions[0].items == merge && s.sessions[0].strategy == Merge
    ensures forall store :: Replay(Apply(store, Step(env, s, Commit(0)).1), []) == SetMany(store, merge, Merge).0
  {
  }

  lemma ReplayStep(env: Env, s: System, a: seq<Action>, store: Store)
    requires a != []
    ensures var (s1, event) := Step(env, s, a[0]);
            Replay(store, Run(env, s, a).1) == Replay(Apply(store, event), Run(env, s1, a[1..]).1)
  {
    var (s1, event) := Step(env, s, a[0]);
    var events := Run(env, s1, a[1..]).1;
    assert Run(env, s, a).1 == [event] + events;
    assert ([event] + events)[1..] == events;
  }

  lemma ReplayOfReads(env: Env, s: System, a: seq<Action>, k: Key, merge: Store)
    requires s.sessions == [Idle, Idle] && merge.Keys == {k} == s.data.Keys && |a| >= 4
    requires a[0] == Begin(0, merge, Merge, [k]) && a[1] == Acquire(0)
             && a[2] == ReadFlags(0) && a[3] == ReadValue(0, k)
    ensures Replay(s.data, Run(env, s, a).1) == Replay(s.data, Run(env, AfterReads(s, k, merge), a[4..]).1)
  {
    var s1 := Step(env, s, a[0]).0;
    var s2 := Step(env, s1, a[1]).0;
    var s3 := Step(env, s2, a[2]).0;
    MergeReads(env, s, k, merge);
    assert a[1..][1..] == a[2..] && a[2..][1..] == a[3..] && a[3..][1..] == a[4..];
    ReplayStep(env, s, a, s.data);
    ReplayStep(env, s1, a[1..], s.data);
    ReplayStep(env, s2, a[2..], s.data);
    ReplayStep(env, s3, a[3..], s.data);
    BeginIsSilent(env, s, k, merge);
  }

  lemma BeginIsSilent(env: Env, s: System, k: Key, merge: Store)
    requires |s.sessions| > 0
    ensures var s1 := Step(env, s, Begin(0, merge, Merge, [k])).0;
            var s2 := Step(env, s1, Acquire(0)).0;
            var s3 := Step(env, s2, ReadFlags(0)).0;
            && Step(env, s, Begin(0, merge, Merge, [k])).1 == Silent && Step(env, s1, Acquire(0)).1 == Silent
            && (s.sessions[0].Idle? ==> Step(env, s2, ReadFlags(0)).1 == Silent)
            && Step(env, s3, ReadValue(0, k)).1 == Silent
  {
  }

  /** The locks do not protect against the overwrite path: such an overwrite is lost without a trace, and
      as soon as it wrote a field of its own no order of the two calls explains the result. */
  lemma LockFreeWriteIsLost(env: Env, start: Store, a: seq<Action>, k: Key, merge: Store, other: Store)
    requires start.Keys == merge.Keys == other.Keys == {k} && Overtaken(a, k, merge, other)
    ensures var end := Run(env, System(start, [Idle, Idle]), a).0.data;
            && end == map[k := start[k] + merge[k]]
            && (!(other[k].Keys <= start[k].Keys + merge[k].Keys) ==>
                  && end != SetMany(SetMany(start, merge, Merge).0, other, Overwrite).0
                  && end != SetMany(SetMany(start, other, Overwrite).0, merge, Merge).0)
  {
    OvertakenRun(env, start, a, k, merge, other);
    OverwriteIsGone(start, k, merge, other);
  }

  lemma OverwriteIsGone(start: Store, k: Key, merge: Store, other: Store)
    requires start.Keys == merge.Keys == other.Keys == {k}
    ensures var end := (start + other) + map[k := start[k] + merge[k]];
            && end == map[k := start[k] + merge[k]]
            && (!(other[k].Keys <= start[k].Keys + merge[k].Keys) ==>
                  && end != SetMany(SetMany(start, merge, Merge).0, other, Overwrite).0
                  && end != SetMany(SetMany(start, other, Overwrite).0, merge, Merge).0)
  {
    OrdersKeepTheOverwrite(start, k, merge, other);
    var end: Store := map[k := start[k] + merge[k]];
    assert (start + other) + end == end;
    if !(other[k].Keys <= start[k].Keys + merge[k].Keys) {
      var f :| f in other[k] && f !in start[k] && f !in merge[k];
      assert f !in end[k] && f in other[k] + merge[k];
    }
  }

  lemma OrdersKeepTheOverwrite(start: Store, k: Key, merge: Store, other: Store)
    requires start.Keys == merge.Keys == other.Keys == {k}
    ensures SetMany(SetMany(start, merge, Merge).0, other, Overwrite).0[k] == other[k]
    ensures SetMany(SetMany(start, other, Overwrite).0, merge, Merge).0[k] == other[k] + merge[k]
  {
    OverwriteEffect(SetMany(start, merge, Merge).0, other);
    OverwriteEffect(start, other);
    assert Effect(start + other, merge, Merge)[k] == other[k] + merge[k];
  }

  ghost function AfterReads(s: System, k: Key, merge: Store): System
    requires |s.sessions| > 0 && k in s.data
  {
    Become(s, 0, Resolving(merge, Merge, [k], {k}, map[k := s.data[k]], false))
  }

  /** A merge of one present key, run up to its commit. */
  lemma MergeReads(env: Env, s: System, k: Key, merge: Store)
    requires |s.sessions| == 2 && s.sessions[0] == Idle && s.sessions[1] == Idle && merge.Keys == {k} == s.data.Keys
    ensures Step(env, Step(env, Step(env, Step(env, s, Begin(0, merge, Merge, [k])).0, Acquire(0)).0,
                           ReadFlags(0)).0, ReadValue(0, k)).0 == AfterReads(s, k, merge)
  {
    var w1 := Locking(merge, Merge, [k], 0);
    var w3 := Resolving(merge, Merge, [k], {k}, map[], false);
    var s1 := Become(s, 0, w1);
    var s2 := Become(s, 0, w1.(held := 1));
    var s3 := Become(s, 0, w3);
    assert IsPlan(env, [k], merge.Keys) && k in merge;
    assert Step(env, s, Begin(0, merge, Merge, [k])).0 == s1;
    assert !Blocked(env, s1, 0);
    assert Step(env, s1, Acquire(0)).0 == s2;
    assert merge.Keys * s.data.Keys == {k};
    assert Step(env, s2, ReadFlags(0)).0 == s3;
    ValueRead(env, s, k, merge);
  }

  lemma ValueRead(env: Env, s: System, k: Key, merge: Store)
    requires |s.sessions| > 0 && k in s.data
    ensures var w := Resolving(merge, Merge, [k], {k}, map[], false);
            Step(env, Become(s, 0, w), ReadValue(0, k)).0 == AfterReads(s, k, merge)
  {
    var got: map<Key, Value> := map[];
    assert got[k := s.data[k]] == map[k := s.data[k]];
  }

  lemma OvertakenMerge(env: Env, s: System, k: Key, merge: Store, other: Store)
    requires |s.sessions| == 2 && k in s.data && k in merge && k in other
    requires s.sessions[0] == Resolving(merge, Merge, [k], {k}, map[k := s.data[k]], false) && s.sessions[1] == Idle
    requires merge.Keys == {k}
    ensures Step(env, Step(env, s, OverwriteMany(1, other)).0, Commit(0)).0.data
         == (s.data + other) + map[k := s.data[k] + merge[k]]
  {
    var s5 := Unlocked(s, s.data + other, other.Keys);
    assert Step(env, s, OverwriteMany(1, other)).0 == s5;
    assert ToWrite(merge, Merge, {k}, map[k := s.data[k]]) == map[k := s.data[k] + merge[k]];
    assert Ready(s5.sessions[0]);
  }

  lemma RunSix(env: Env, s: System, a: seq<Action>)
    requires |a| == 6
    ensures Run(env, s, a).0
         == Step(env, Step(env, Step(env, Step(env, Step(env, Step(env, s,
                 a[0]).0, a[1]).0, a[2]).0, a[3]).0, a[4]).0, a[5]).0
  {
    RunFour(env, s, a);
    var s4 := Step(env, Step(env, Step(env, Step(env, s, a[0]).0, a[1]).0, a[2]).0, a[3]).0;
    assert a[4..] == [a[4], a[5]] && [a[4], a[5]][1..] == [a[5]] && [a[5]][1..] == [];
    assert Run(env, Step(env, s4, a[4]).0, [a[5]]).0 == Step(env, Step(env, s4, a[4]).0, a[5]).0;
  }

  lemma RunFour(env: Env, s: System, a: seq<Action>)
    requires |a| >= 4
    ensures Run(env, s, a).0
         == Run(env, Step(env, Step(env, Step(env, Step(env, s, a[0]).0, a[1]).0, a[2]).0, a[3]).0, a[4..]).0
  {
    assert a[1..][1..] == a[2..] && a[2..][1..] == a[3..] && a[3..][1..] == a[4..];
    var s2 := Step(env, Step(env, s, a[0]).0, a[1]).0;
    assert Run(env, s, a).0 == Run(env, s2, a[2..]).0;
    assert Run(env, s2, a[2..]).0 == Run(env, Step(env, Step(env, s2, a[2]).0, a[3]).0, a[4..]).0;
  }

  // ---- no wait cycle ----

  predicate BlockedWithin(env: Env, s: System, group: set<nat>, w: nat) {
    exists u :: u in group && Blocks(env, s, u, w)
  }

  /** Every session of the group waits for another one of the group. */
  ghost predicate Deadlocked(env: Env, s: System, group: set<nat>) {
    group != {} && forall w {:trigger BlockedWithin(env, s, group, w)} :: w in group ==> BlockedWithin(env, s, group, w)
  }

  /** Of the keys in play, those between two keys of the same hash have that hash too. */
  ghost predicate Convex(env: Env, keys: set<Key>) {
    forall a, b, c :: a in keys && b in keys && c in keys ==>
      env.order(a) < env.order(b) < env.order(c) && env.hash(a) == env.hash(c) ==> env.hash(b) == env.hash(a)
  }

  ghost predicate Injective(env: Env, keys: set<Key>) {
    forall a, b :: a in keys && b in keys && env.hash(a) == env.hash(b) ==> a == b
  }

  /** Distinct hashes are the usual way to meet it. */
  lemma InjectiveIsConvex(env: Env, keys: set<Key>)
    requires Injective(env, keys)
    ensures Convex(env, keys)
  {
  }

  /** Open transactions are on keys in play. */
  ghost predicate OpenWithin(s: System, keys: set<Key>) {
    forall i :: 0 <= i < |s.sessions| && !s.sessions[i].Idle? ==> s.sessions[i].items.Keys <= keys
  }

  /** The lock-taking calls are on keys in play, the lock-free ones off them: their row locks are not part of
      this state machine. */
  ghost predicate LocksWithin(schedule: seq<Action>, keys: set<Key>) {
    forall a :: a in schedule ==>
      match a
      case Begin(_, items, _, _) => items.Keys <= keys
      case OverwriteMany(_, items) => items.Keys !! keys
      case DeleteMany(_, gone) => gone !! keys
      case _ => true
  }

  lemma StepStaysWithin(env: Env, s: System, a: Action, keys: set<Key>)
    requires OpenWithin(s, keys) && (a.Begin? ==> a.items.Keys <= keys)
    ensures OpenWithin(Step(env, s, a).0, keys)
  {
  }

  lemma {:induction false} RunStaysWithin(env: Env, s: System, schedule: seq<Action>, keys: set<Key>)
    requires OpenWithin(s, keys) && LocksWithin(schedule, keys)
    ensures OpenWithin(Run(env, s, schedule).0, keys)
    decreases |schedule|
  {
    if schedule != [] {
      assert schedule[0] in schedule;
      assert forall a :: a in schedule[1..] ==> a in schedule;
      StepStaysWithin(env, s, schedule[0], keys);
      RunStaysWithin(env, Step(env, s, schedule[0]).0, schedule[1..], keys);
    }
  }

  function NextOrder(env: Env, s: System, w: nat): int {
    if w < |s.sessions| && Waiting(s.sessions[w]) then env.order(s.sessions[w].plan[s.sessions[w].held]) else 0
  }

  lemma {:induction false} LastWaiter(env: Env, s: System, group: set<nat>) returns (w: nat)
    requires group != {}
    ensures w in group && forall u :: u in group ==> NextOrder(env, s, u) <= NextOrder(env, s, w)
    decreases |group|
  {
    w :| w in group;
    if group != {w} {
      var other := LastWaiter(env, s, group - {w});
      if NextOrder(env, s, w) < NextOrder(env, s, other) {
        w := other;
      }
    }
  }

  lemma HolderIsNotBlocked(env: Env, s: System, v: nat, u: nat)
    requires Exclusive(env, s) && u < |s.sessions| && Waiting(s.sessions[u])
    requires Holds(env, s.sessions[u], NextLock(env, s.sessions[u]))
    ensures !Blocks(env, s, v, u)
  {
  }

  lemma BlockedFrom(env: Env, s: System, group: set<nat>, w: nat) returns (u: nat)
    requires Deadlocked(env, s, group) && w in group
    ensures u in group && Blocks(env, s, u, w)
  {
    assert BlockedWithin(env, s, group, w);
    u :| u in group && Blocks(env, s, u, w);
  }

  lemma SortedLocksCannotDeadlock(env: Env, s: System, group: set<nat>, keys: set<Key>)
    requires TotalOrder(env, keys) && Convex(env, keys) && Inv(env, s) && OpenWithin(s, keys)
    ensures !Deadlocked(env, s, group)
  {
    if Deadlocked(env, s, group) {
      var w := LastWaiter(env, s, group);
      var u := BlockedFrom(env, s, group, w);
      var v := BlockedFrom(env, s, group, u);
      assert Planned(env, s.sessions[u]) && Planned(env, s.sessions[w]);
      HolderWantsSameLock(env, s.sessions[u], s.sessions[w], keys);
      HolderIsNotBlocked(env, s, v, u);
    }
  }

  /** If what the last waiter wants is held by someone who wants nothing later, both want the same lock. */
  lemma HolderWantsSameLock(env: Env, u: Session, w: Session, keys: set<Key>)
    requires TotalOrder(env, keys) && Convex(env, keys)
    requires Waiting(u) && Planned(env, u) && u.items.Keys <= keys
    requires Waiting(w) && Planned(env, w) && w.items.Keys <= keys
    requires Holds(env, u, NextLock(env, w)) && env.order(u.plan[u.held]) <= env.order(w.plan[w.held])
    ensures NextLock(env, u) == NextLock(env, w)
  {
    var i :| 0 <= i < Held(u) && i < |u.plan| && env.hash(u.plan[i]) == NextLock(env, w);
    assert env.order(u.plan[i]) < env.order(u.plan[u.held]);
    assert u.plan[i] in u.plan && u.plan[u.held] in u.plan && w.plan[w.held] in w.plan;
    assert u.plan[i] in keys && u.plan[u.held] in keys && w.plan[w.held] in keys;
    if env.order(u.plan[u.held]) < env.order(w.plan[w.held]) {
      assert env.hash(u.plan[u.held]) == env.hash(u.plan[i]);
    }
  }

  ghost predicate NeverDeadlocks(env: Env, keys: set<Key>) {
    forall s, schedule, group :: Start(s) && LocksWithin(schedule, keys) ==>
      !Deadlocked(env, Run(env, s, schedule).0, group)
  }

  /** For any set of keys in play: exactly when the lock order follows their order can no set of lock-taking
      writers, in any run on these keys, wait for each other's advisory locks in a cycle. */
  lemma DeadlockFreeExactlyWhenConvex(env: Env, keys: set<Key>)
    requires TotalOrder(env, keys)
    ensures NeverDeadlocks(env, keys) <==> Convex(env, keys)
  {
    if Convex(env, keys) {
      forall s, schedule, group | Start(s) && LocksWithin(schedule, keys)
        ensures !Deadlocked(env, Run(env, s, schedule).0, group)
      {
        assert Inv(env, s);
        RunsAreSerial(env, s, schedule);
        RunStaysWithin(env, s, schedule, keys);
        SortedLocksCannotDeadlock(env, Run(env, s, schedule).0, group, keys);
      }
    } else {
      var a, b, c :| a in keys && b in keys && c in keys && env.order(a) < env.order(b) < env.order(c)
                     && env.hash(a) == env.hash(c) && env.hash(b) != env.hash(a);
      CollisionDeadlocks(env, a, b, c, keys);
    }
  }

  /** Two writers and one hash collision around a third key. */
  lemma CollisionDeadlocks(env: Env, a: Key, b: Key, c: Key, keys: set<Key>)
    requires a in keys && b in keys && c in keys && env.order(a) < env.order(b) < env.order(c)
    requires env.hash(a) == env.hash(c) && env.hash(b) != env.hash(a)
    ensures !NeverDeadlocks(env, keys)
  {
    var first: Store, second: Store := map[a := map[], b := map[]], map[b := map[], c := map[]];
    var s0 := System(map[], [Idle, Idle]);
    var schedule := [Begin(0, first, Merge, [a, b]), Begin(1, second, Merge, [b, c]), Acquire(0), Acquire(1)];
    TwoWritersDeadlock(env, s0, schedule, a, b, c, first, second);
    assert Start(s0) && LocksWithin(schedule, keys);
  }

  lemma TwoWritersDeadlock(env: Env, s: System, schedule: seq<Action>, a: Key, b: Key, c: Key,
                           first: Store, second: Store)
    requires env.order(a) < env.order(b) < env.order(c)
    requires env.hash(a) == env.hash(c) && env.hash(b) != env.hash(a)
    requires s.sessions == [Idle, Idle] && first.Keys == {a, b} && second.Keys == {b, c}
    requires schedule == [Begin(0, first, Merge, [a, b]), Begin(1, second, Merge, [b, c]), Acquire(0), Acquire(1)]
    ensures Deadlocked(env, Run(env, s, schedule).0, {0, 1})
  {
    var s2 := Step(env, Step(env, s, schedule[0]).0, schedule[1]).0;
    RunFour(env, s, schedule);
    assert schedule[4..] == [];
    assert Run(env, s, schedule).0 == Step(env, Step(env, s2, schedule[2]).0, schedule[3]).0;
    BothBegin(env, s, a, b, c, first, second);
    BothAcquireFirst(env, s2, a, b, c, first, second);
  }

  lemma BothBegin(env: Env, s: System, a: Key, b: Key, c: Key, first: Store, second: Store)
    requires env.order(a) < env.order(b) < env.order(c)
    requires s.sessions == [Idle, Idle] && first.Keys == {a, b} && second.Keys == {b, c}
    ensures Step(env, Step(env, s, Begin(0, first, Merge, [a, b])).0, Begin(1, second, Merge, [b, c])).0.sessions
         == [Locking(first, Merge, [a, b], 0), Locking(second, Merge, [b, c], 0)]
  {
    assert IsPlan(env, [a, b], first.Keys) && IsPlan(env, [b, c], second.Keys) && b in first && b in second;
  }

  lemma BothAcquireFirst(env: Env, s: System, a: Key, b: Key, c: Key, first: Store, second: Store)
    requires env.hash(a) == env.hash(c) && env.hash(b) != env.hash(a)
    requires s.sessions == [Locking(first, Merge, [a, b], 0), Locking(second, Merge, [b, c], 0)]
    ensures Deadlocked(env, Step(env, Step(env, s, Acquire(0)).0, Acquire(1)).0, {0, 1})
  {
    var w0, w1 := Locking(first, Merge, [a, b], 1), Locking(second, Merge, [b, c], 1);
    assert !Blocked(env, s, 0);
    var s3 := Step(env, s, Acquire(0)).0;
    assert s3.sessions == [w0, Locking(second, Merge, [b, c], 0)];
    assert !Blocked(env, s3, 1);
    var s4 := Step(env, s3, Acquire(1)).0;
    assert s4.sessions == [w0, w1];
    assert Holds(env, w0, env.hash(a)) by { assert env.hash(w0.plan[0]) == env.hash(a); }
    assert Holds(env, w1, env.hash(b)) by { assert env.hash(w1.plan[0]) == env.hash(b); }
    assert Blocks(env, s4, 1, 0) && Blocks(env, s4, 0, 1);
    assert BlockedWithin(env, s4, {0, 1}, 0) && BlockedWithin(env, s4, {0, 1}, 1);
  }

  // ---- everybody finishes ----

  /** Steps a session still needs. */
  ghost function Work(w: Session): nat {
    match w
    case Idle => 0
    case Locking(items, _, plan, held) => (if held <= |plan| then |plan| - held else 0) + |items.Keys| + 2
    case Resolving(_, strategy, _, conflicts, got, _) => 1 + if strategy == Merge then |conflicts - got.Keys| else 0
  }

  ghost function TotalWork(sessions: seq<Session>): nat {
    if sessions == [] then 0 else Work(sessions[0]) + TotalWork(sessions[1..])
  }

  lemma {:induction false} TotalWorkFalls(sessions: seq<Session>, c: nat, w: Session)
    requires c < |sessions| && Work(w) < Work(sessions[c])
    ensures TotalWork(sessions[c := w]) < TotalWork(sessions)
    decreases c
  {
    if c == 0 {
      assert sessions[c := w][1..] == sessions[1..];
    } else {
      TotalWorkFalls(sessions[1..], c - 1, w);
      assert sessions[c := w][1..] == sessions[1..][c - 1 := w];
    }
  }

  ghost function NextAction(c: nat, w: Session): (a: Action)
    ensures a.c == c && !a.Begin?
  {
    if Waiting(w) then Acquire(c)
    else if w.Locking? then ReadFlags(c)
    else if w.Resolving? && w.strategy == Merge && w.conflicts - w.got.Keys != {} then
      var k :| k in w.conflicts - w.got.Keys; ReadValue(c, k)
    else Commit(c)
  }

  lemma ResolvingWork(w: Session, conflicts: set<Key>)
    requires w.Locking? && conflicts <= w.items.Keys
    ensures Work(Resolving(w.items, w.strategy, w.plan, conflicts, map[], false)) < Work(w)
  {
    var got: map<Key, Value> := map[];
    SubsetIsSmaller(conflicts - got.Keys, w.items.Keys);
  }

  lemma ReadingWork(w: Session, k: Key, v: Value)
    requires w.Resolving? && w.strategy == Merge && k in w.conflicts - w.got.Keys
    ensures Work(w.(got := w.got[k := v])) < Work(w)
  {
    assert k !in w.conflicts - w.got[k := v].Keys;
    SubsetIsSmaller(w.conflicts - w.got[k := v].Keys, w.conflicts - w.got.Keys);
  }

  ghost predicate LessWork(s: System, c: nat, s': System)
    requires c < |s.sessions|
  {
    exists w' :: s'.sessions == s.sessions[c := w'] && Work(w') < Work(s.sessions[c])
  }

  lemma LockingProgresses(env: Env, s: System, c: nat)
    requires c < |s.sessions| && s.sessions[c].Locking? && (Waiting(s.sessions[c]) ==> !Blocked(env, s, c))
    ensures LessWork(s, c, Step(env, s, NextAction(c, s.sessions[c])).0)
  {
    var w := s.sessions[c];
    if Waiting(w) {
      var w' := w.(held := w.held + 1);
      assert Work(w') < Work(w);
      assert Step(env, s, Acquire(c)).0.sessions == s.sessions[c := w'];
    } else {
      var conflicts := w.items.Keys * s.data.Keys;
      ResolvingWork(w, conflicts);
      var w' := if w.strategy == Raise && conflicts != {} then Idle
                else Resolving(w.items, w.strategy, w.plan, conflicts, map[], false);
      assert Work(w') < Work(w);
      assert Step(env, s, ReadFlags(c)).0.sessions == s.sessions[c := w'];
    }
  }

  lemma ResolvingProgresses(env: Env, s: System, c: nat)
    requires c < |s.sessions| && s.sessions[c].Resolving? && s.sessions[c].got.Keys <= s.sessions[c].conflicts
    ensures LessWork(s, c, Step(env, s, NextAction(c, s.sessions[c])).0)
  {
    var w := s.sessions[c];
    if w.strategy == Merge && w.conflicts - w.got.Keys != {} {
      ReadingProgresses(env, s, c, NextAction(c, w).key);
    } else {
      if w.strategy == Merge {
        assert forall k :: k in w.conflicts ==> k in w.got.Keys || k in w.conflicts - w.got.Keys;
        assert w.got.Keys == w.conflicts;
      }
      CommitProgresses(env, s, c);
    }
  }

  lemma ReadingProgresses(env: Env, s: System, c: nat, k: Key)
    requires c < |s.sessions| && s.sessions[c].Resolving? && s.sessions[c].strategy == Merge
    requires k in s.sessions[c].conflicts - s.sessions[c].got.Keys
    ensures LessWork(s, c, Step(env, s, ReadValue(c, k)).0)
  {
    var w := s.sessions[c];
    var v: Value := if k in s.data then s.data[k] else map[];
    ReadingWork(w, k, v);
    assert Step(env, s, ReadValue(c, k)).0.sessions == s.sessions[c := w.(got := w.got[k := v])];
  }

  lemma CommitProgresses(env: Env, s: System, c: nat)
    requires c < |s.sessions| && Ready(s.sessions[c])
    ensures LessWork(s, c, Step(env, s, Commit(c)).0)
  {
    assert Work(Idle) < Work(s.sessions[c]);
    assert Step(env, s, Commit(c)).0.sessions == s.sessions[c := Idle];
  }

  lemma UnblockedProgresses(env: Env, s: System, c: nat)
    requires Inv(env, s) && c < |s.sessions| && !s.sessions[c].Idle?
    requires Waiting(s.sessions[c]) ==> !Blocked(env, s, c)
    ensures var s' := Step(env, s, NextAction(c, s.sessions[c])).0;
            |s'.sessions| == |s.sessions| && TotalWork(s'.sessions) < TotalWork(s.sessions)
  {
    assert ReadsAreCurrent(s.data, s.sessions[c]);
    if s.sessions[c].Locking? {
      LockingProgresses(env, s, c);
    } else {
      ResolvingProgresses(env, s, c);
    }
    var s' := Step(env, s, NextAction(c, s.sessions[c])).0;
    var w' :| s'.sessions == s.sessions[c := w'] && Work(w') < Work(s.sessions[c]);
    TotalWorkFalls(s.sessions, c, w');
  }

  ghost function Open(s: System): set<nat> {
    set i: nat | i < |s.sessions| && !s.sessions[i].Idle?
  }

  lemma BlockersAreOpen(env: Env, s: System, w: nat)
    requires w < |s.sessions| && Blocked(env, s, w)
    ensures BlockedWithin(env, s, Open(s), w)
  {
    var u :| 0 <= u < |s.sessions| && Blocks(env, s, u, w);
    assert u in Open(s);
  }

  lemma SomeoneCanStep(env: Env, s: System, keys: set<Key>) returns (c: nat)
    requires TotalOrder(env, keys) && Convex(env, keys) && Inv(env, s) && OpenWithin(s, keys) && Open(s) != {}
    ensures c < |s.sessions| && !s.sessions[c].Idle? && (Waiting(s.sessions[c]) ==> !Blocked(env, s, c))
  {
    SortedLocksCannotDeadlock(env, s, Open(s), keys);
    c :| c in Open(s) && !BlockedWithin(env, s, Open(s), c);
    if Blocked(env, s, c) {
      BlockersAreOpen(env, s, c);
    }
  }

  /** From every reachable state the open transactions can all be brought to their end, in a bounded number
      of steps and without anybody being aborted by a deadlock detector. */
  lemma {:induction false} EverybodyFinishes(env: Env, s: System, keys: set<Key>) returns (schedule: seq<Action>)
    requires TotalOrder(env, keys) && Convex(env, keys) && Inv(env, s) && OpenWithin(s, keys)
    ensures |schedule| <= TotalWork(s.sessions)
    ensures Start(Run(env, s, schedule).0)
    decreases TotalWork(s.sessions)
  {
    if Start(s) {
      schedule := [];
    } else {
      var active: nat :| active < |s.sessions| && s.sessions[active] != Idle;
      assert active in Open(s);
      var c := SomeoneCanStep(env, s, keys);
      var a := NextAction(c, s.sessions[c]);
      UnblockedProgresses(env, s, c);
      StepIsSequential(env, s, a);
      StepStaysWithin(env, s, a, keys);
      var rest := EverybodyFinishes(env, Step(env, s, a).0, keys);
      schedule := [a] + rest;
      assert schedule[1..] == rest;
    }
  }

  // ---- what each call does ----

  /** Overwrites and deletes take effect at once. */
  lemma LockFreeCallsWrite(env: Env, s: System, c: nat, items: Store, keys: set<Key>)
    requires c < |s.sessions| && s.sessions[c] == Idle
    ensures var (s', event) := Step(env, s, OverwriteMany(c, items));
            event == Overwrote(items) && s'.data == s.data + items
    ensures var (s', event) := Step(env, s, DeleteMany(c, keys));
            event == Deleted(keys) && s'.data == s.data - keys
  {
  }

  /** The event is the end of a call with these arguments, on current reads. */
  predicate EndsCall(event: Event, items: Store, strategy: Strategy) {
    || event == Wrote(items, strategy, false)
    || (event.Raised? && event.items == items && strategy == Raise)
  }

  ghost predicate OnlyLast(events: seq<Event>) {
    events != [] && forall i :: 0 <= i < |events| - 1 ==> events[i] == Silent
  }

  /** The session is idle again, the last event is the end of its call, and nothing else was observed. */
  ghost predicate Finishes(outcome: (System, seq<Event>), c: nat, items: Store, strategy: Strategy) {
    && c < |outcome.0.sessions| && outcome.0.sessions[c] == Idle
    && OnlyLast(outcome.1) && EndsCall(outcome.1[|outcome.1| - 1], items, strategy)
  }

  /** Session c has an undisturbed transaction for these items and nobody else has one. */
  ghost predicate IsOnlyOne(s: System, c: nat, items: Store, strategy: Strategy) {
    && c < |s.sessions| && (forall i :: 0 <= i < |s.sessions| && i != c ==> s.sessions[i] == Idle)
    && !s.sessions[c].Idle? && s.sessions[c].items == items && s.sessions[c].strategy == strategy
    && (s.sessions[c].Resolving? ==> !s.sessions[c].stale)
  }

  /** The step ends the call of session c or goes on unobserved. */
  ghost predicate GoesOn(outcome: (System, Event), c: nat, items: Store, strategy: Strategy) {
    && c < |outcome.0.sessions|
    && if outcome.0.sessions[c] == Idle then EndsCall(outcome.1, items, strategy)
       else outcome.1 == Silent && IsOnlyOne(outcome.0, c, items, strategy)
  }

  lemma OnlyOneIsNotBlocked(env: Env, s: System, c: nat, items: Store, strategy: Strategy)
    requires IsOnlyOne(s, c, items, strategy)
    ensures !Blocked(env, s, c)
  {
  }

  lemma LockingGoesOn(env: Env, s: System, c: nat, items: Store, strategy: Strategy)
    requires IsOnlyOne(s, c, items, strategy) && s.sessions[c].Locking? && !Blocked(env, s, c)
    ensures GoesOn(Step(env, s, NextAction(c, s.sessions[c])), c, items, strategy)
  {
  }

  lemma ResolvingGoesOn(env: Env, s: System, c: nat, items: Store, strategy: Strategy)
    requires IsOnlyOne(s, c, items, strategy) && s.sessions[c].Resolving?
    requires s.sessions[c].got.Keys <= s.sessions[c].conflicts
    ensures GoesOn(Step(env, s, NextAction(c, s.sessions[c])), c, items, strategy)
  {
    var w := s.sessions[c];
    if w.strategy == Merge && w.conflicts - w.got.Keys == {} {
      assert forall k :: k in w.conflicts ==> k in w.got.Keys || k in w.conflicts - w.got.Keys;
      assert w.got.Keys == w.conflicts;
    }
  }

  lemma NextStepOfOnlyOne(env: Env, s: System, c: nat, items: Store, strategy: Strategy)
    requires Inv(env, s) && IsOnlyOne(s, c, items, strategy)
    ensures GoesOn(Step(env, s, NextAction(c, s.sessions[c])), c, items, strategy)
  {
    OnlyOneIsNotBlocked(env, s, c, items, strategy);
    assert ReadsAreCurrent(s.data, s.sessions[c]);
    if s.sessions[c].Locking? {
      LockingGoesOn(env, s, c, items, strategy);
    } else {
      ResolvingGoesOn(env, s, c, items, strategy);
    }
  }

  lemma FinishesNow(env: Env, s: System, a: Action, c: nat, items: Store, strategy: Strategy)
    requires GoesOn(Step(env, s, a), c, items, strategy) && Step(env, s, a).0.sessions[c] == Idle
    ensures Finishes(Run(env, s, [a]), c, items, strategy)
  {
    var (s', event) := Step(env, s, a);
    assert [a][1..] == [] && Run(env, s', [a][1..]) == (s', []);
    assert Run(env, s, [a]).1 == [event];
  }

  lemma FinishesLater(env: Env, s: System, a: Action, rest: seq<Action>, c: nat, items: Store, strategy: Strategy)
    requires Step(env, s, a).1 == Silent && Finishes(Run(env, Step(env, s, a).0, rest), c, items, strategy)
    ensures Finishes(Run(env, s, [a] + rest), c, items, strategy)
  {
    assert ([a] + rest)[1..] == rest;
    var events := Run(env, Step(env, s, a).0, rest).1;
    assert Run(env, s, [a] + rest).1 == [Silent] + events;
  }

  lemma {:induction false} OnlyOneFinishes(env: Env, s: System, c: nat, items: Store, strategy: Strategy)
    returns (schedule: seq<Action>)
    requires Inv(env, s) && IsOnlyOne(s, c, items, strategy)
    ensures Finishes(Run(env, s, schedule), c, items, strategy)
    decreases TotalWork(s.sessions)
  {
    var a := NextAction(c, s.sessions[c]);
    OnlyOneIsNotBlocked(env, s, c, items, strategy);
    NextStepOfOnlyOne(env, s, c, items, strategy);
    UnblockedProgresses(env, s, c);
    StepIsSequential(env, s, a);
    var s' := Step(env, s, a).0;
    if s'.sessions[c] == Idle {
      schedule := [a];
      FinishesNow(env, s, a, c, items, strategy);
    } else {
      var rest := OnlyOneFinishes(env, s', c, items, strategy);
      schedule := [a] + rest;
      FinishesLater(env, s, a, rest, c, items, strategy);
    }
  }

  lemma {:induction false} LastEventDecides(store: Store, events: seq<Event>)
    requires OnlyLast(events) && Explains(store, events)
    ensures var last := events[|events| - 1];
            Replay(store, events) == Apply(store, last) && Alone(store, last, Apply(store, last))
    decreases |events|
  {
    if |events| > 1 {
      assert events[0] == Silent;
      LastEventDecides(store, events[1..]);
    } else {
      assert events[1..] == [];
    }
  }

  lemma EndIsSequential(store: Store, event: Event, items: Store, strategy: Strategy)
    requires EndsCall(event, items, strategy) && Alone(store, event, Apply(store, event))
    ensures var (after, out) := SetMany(store, items, strategy);
            && Apply(store, event) == after
            && match out
               case KeyError(conflicts) => event == Raised(items, conflicts)
               case _ => event == Wrote(items, strategy, false)
  {
  }

  /** Every conflict-resolving call works: begun when no transaction is open and left alone, it ends with
      exactly the sequential result, the table and the error both. */
  lemma UndisturbedCall(env: Env, s: System, c: nat, items: Store, strategy: Strategy, plan: seq<Key>)
    returns (schedule: seq<Action>)
    requires Start(s) && c < |s.sessions| && items != map[] && strategy != Overwrite && IsPlan(env, plan, items.Keys)
    ensures schedule != [] && schedule[0] == Begin(c, items, strategy, plan)
    ensures var (s', events) := Run(env, s, schedule);
            var (after, out) := SetMany(s.data, items, strategy);
            && Finishes((s', events), c, items, strategy) && s'.data == after
            && match out
               case KeyError(conflicts) => events[|events| - 1] == Raised(items, conflicts)
               case _ => events[|events| - 1] == Wrote(items, strategy, false)
  {
    var a := Begin(c, items, strategy, plan);
    assert Inv(env, s);
    StepIsSequential(env, s, a);
    var rest := OnlyOneFinishes(env, Step(env, s, a).0, c, items, strategy);
    schedule := [a] + rest;
    FinishesLater(env, s, a, rest, c, items, strategy);
    RunsAreSerial(env, s, schedule);
    LastEventDecides(s.data, Run(env, s, schedule).1);
    EndIsSequential(s.data, Run(env, s, schedule).1[|Run(env, s, schedule).1| - 1], items, strategy);
  }
}
