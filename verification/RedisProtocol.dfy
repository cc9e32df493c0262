/** Redis writes as protocol steps of any number of interleaved clients. WATCH covers the data keys only,
    while conflicts are read from the `__keys__` set, so correctness rests on a global index invariant. */
module RedisProtocol {
  import opened Basics
  import opened Stores

  const KEYS_SET: Key := "__keys__"

  datatype Entry = Blob(value: Value) | Members(keys: set<Key>)
  type Keyspace = map<Key, Entry>

  // ---- the database ----

  function Index(db: Keyspace): set<Key> {
    if KEYS_SET in db && db[KEYS_SET].Members? then db[KEYS_SET].keys else {}
  }

  /** The store a client sees: every string entry but the reserved one. */
  function Data(db: Keyspace): Store {
    map k | k in db && k != KEYS_SET && db[k].Blob? :: db[k].value
  }

  /** The members of `__keys__` are exactly the data keys, and `__keys__` is not one of them. */
  ghost predicate Consistent(db: Keyspace) {
    WellTyped(db) && Index(db) == Data(db).Keys
  }

  function SetCommands(db: Keyspace, values: Store): Keyspace {
    db + map k | k in values :: Blob(values[k])
  }

  /** SADD creates the set when it is missing and fails on a key of another type. */
  function SAdd(db: Keyspace, keys: set<Key>): Keyspace {
    if keys == {} || (KEYS_SET in db && db[KEYS_SET].Blob?) then db
    else db[KEYS_SET := Members(Index(db) + keys)]
  }

  /** SREM drops the set together with its last member. */
  function SRem(db: Keyspace, keys: set<Key>): Keyspace {
    if KEYS_SET !in db || db[KEYS_SET].Blob? then db
    else if Index(db) - keys == {} then db - {KEYS_SET}
    else db[KEYS_SET := Members(Index(db) - keys)]
  }

  /** The MULTI/EXEC block of a write and of a delete. */
  function WriteBlock(db: Keyspace, values: Store): Keyspace {
    SAdd(SetCommands(db, values), values.Keys)
  }

  function DeleteBlock(db: Keyspace, keys: set<Key>): Keyspace {
    SRem(db - keys, keys)
  }

  lemma WriteBlockIsWrite(db: Keyspace, values: Store)
    requires Consistent(db) && KEYS_SET !in values
    ensures Consistent(WriteBlock(db, values)) && Data(WriteBlock(db, values)) == Data(db) + values
  {
    SetCommandsWrite(db, values);
    SAddKeepsData(SetCommands(db, values), values.Keys);
  }

  /** Only the reserved key holds a set, and as Redis has it, never an empty one. */
  ghost predicate WellTyped(db: Keyspace) {
    && (forall k :: k in db ==> (k == KEYS_SET <==> db[k].Members?))
    && (KEYS_SET in db ==> db[KEYS_SET] != Members({}))
  }

  lemma SetCommandsWrite(db: Keyspace, values: Store)
    requires WellTyped(db) && KEYS_SET !in values
    ensures WellTyped(SetCommands(db, values)) && Index(SetCommands(db, values)) == Index(db)
    ensures Data(SetCommands(db, values)) == Data(db) + values
  {
  }

  lemma SAddKeepsData(db: Keyspace, keys: set<Key>)
    requires WellTyped(db)
    ensures WellTyped(SAdd(db, keys)) && Data(SAdd(db, keys)) == Data(db) && Index(SAdd(db, keys)) == Index(db) + keys
  {
  }

  lemma DeleteBlockIsDelete(db: Keyspace, keys: set<Key>)
    requires Consistent(db) && KEYS_SET !in keys
    ensures Consistent(DeleteBlock(db, keys)) && Data(DeleteBlock(db, keys)) == Data(db) - keys
  {
    var less := db - keys;
    assert Index(less) == Index(db);
    assert Data(less) == Data(db) - keys;
    assert Data(DeleteBlock(db, keys)) == Data(less);
  }

  // ---- the clients ----

  /** Where a client stands inside the retry loop of set_many. */
  datatype Phase = Unwatched | Watched | Resolving(conflicts: set<Key>, got: map<Key, Value>)

  /** `dirty`: a watched key changed since WATCH, so EXEC will fail. `rounds` counts the WATCH commands
      of this call, `touches` the writes of others that changed a key it was watching. */
  datatype Client =
    | Idle
    | Writing(items: Store, strategy: Strategy, phase: Phase, dirty: bool, rounds: nat, touches: nat)
    | Clearing(seen: set<Key>)

  datatype System = System(db: Keyspace, clients: seq<Client>)

  datatype Action =
    | SetMany(c: nat, items: Store, strategy: Strategy)  // call set_many
    | Watch(c: nat)                                       // WATCH the keys of the call
    | ReadFlags(c: nat)                                   // contains_many via `__keys__`
    | ReadValue(c: nat, key: Key)                         // get, for a conflict of a merge
    | Exec(c: nat)                                        // MULTI ... EXEC
    | DeleteMany(c: nat, keys: set<Key>)
    | ReadKeys(c: nat)                                    // clear: SMEMBERS first
    | ClearSeen(c: nat)                                   // clear: then delete_many of what it saw

  /** What a step lets the outside observe; `touched` are the data keys the transaction changed. */
  datatype Event =
    | Silent
    | Rejected
    | Wrote(items: Store, strategy: Strategy, touched: set<Key>)
    | Raised(items: Store, conflicts: set<Key>)
    | Deleted(keys: set<Key>, touched: set<Key>)

  /** Other clients learn that a transaction changed keys they watch. */
  function Notify(client: Client, touched: set<Key>): Client {
    if client.Writing? && client.phase != Unwatched && client.items.Keys * touched != {}
    then client.(dirty := true, touches := client.touches + 1)
    else client
  }

  function Commit(s: System, c: nat, db: Keyspace, touched: set<Key>): System
    requires c < |s.clients|
  {
    System(db, seq(|s.clients|, i requires 0 <= i < |s.clients| =>
      if i == c then Idle else Notify(s.clients[i], touched)))
  }

  function Become(s: System, c: nat, client: Client): System
    requires c < |s.clients|
  {
    s.(clients := s.clients[c := client])
  }

  function DeleteStep(s: System, c: nat, keys: set<Key>): (System, Event)
    requires c < |s.clients|
  {
    if keys == {} then (Become(s, c, Idle), Silent)
    else if KEYS_SET in keys then (Become(s, c, Idle), Rejected)
    else (Commit(s, c, DeleteBlock(s.db, keys), keys * s.db.Keys), Deleted(keys, keys * s.db.Keys))
  }

  function SetManyStep(s: System, c: nat, items: Store, strategy: Strategy): (System, Event)
    requires c < |s.clients|
  {
    if items == map[] then (s, Silent)
    else if KEYS_SET in items then (s, Rejected)
    else if strategy == Overwrite then
      (Commit(s, c, WriteBlock(s.db, items), items.Keys), Wrote(items, strategy, items.Keys))
    else (Become(s, c, Writing(items, strategy, Unwatched, false, 0, 0)), Silent)
  }

  function FlagsStep(s: System, c: nat, w: Client): (System, Event)
    requires c < |s.clients| && w.Writing?
  {
    var conflicts := w.items.Keys * Index(s.db);
    if w.strategy == Raise && conflicts != {} then (Become(s, c, Idle), Raised(w.items, conflicts))
    else (Become(s, c, w.(phase := Resolving(conflicts, map[]))), Silent)
  }

  /** A value that is gone by now reads as empty. */
  function Fetched(db: Keyspace, key: Key): Value {
    if key in Data(db) then Data(db)[key] else map[]
  }

  /** The transaction of a call is ready once a merge has read all its conflicts. */
  predicate Ready(w: Client) {
    w.Writing? && w.phase.Resolving? && (w.strategy == Merge ==> w.phase.got.Keys == w.phase.conflicts)
  }

  function ExecStep(s: System, c: nat, w: Client): (System, Event)
    requires c < |s.clients| && Ready(w)
  {
    if w.dirty then (Become(s, c, w.(phase := Unwatched, dirty := false)), Silent)  // WatchError: retry
    else
      var toWrite := ToWrite(w.items, w.strategy, w.phase.conflicts, w.phase.got);
      (Commit(s, c, WriteBlock(s.db, toWrite), toWrite.Keys), Wrote(w.items, w.strategy, toWrite.Keys))
  }

  /** An action that does not fit the state of its client is not taken. */
  function Step(s: System, a: Action): (System, Event) {
    if a.c >= |s.clients| then (s, Silent)
    else
      var w := s.clients[a.c];
      match a
      case SetMany(c, items, strategy) => if w.Idle? then SetManyStep(s, c, items, strategy) else (s, Silent)
      case DeleteMany(c, keys) => if w.Idle? then DeleteStep(s, c, keys) else (s, Silent)
      case ReadKeys(c) => (if w.Idle? then Become(s, c, Clearing(Index(s.db))) else s, Silent)
      case ClearSeen(c) => if w.Clearing? then DeleteStep(s, c, w.seen) else (s, Silent)
      case Watch(c) =>
        if w.Writing? && w.phase == Unwatched
        then (Become(s, c, w.(phase := Watched, rounds := w.rounds + 1)), Silent) else (s, Silent)
      case ReadFlags(c) => if w.Writing? && w.phase == Watched then FlagsStep(s, c, w) else (s, Silent)
      case ReadValue(c, key) =>
        if w.Writing? && w.phase.Resolving? && w.strategy == Merge && key in w.phase.conflicts
        then (Become(s, c, w.(phase := w.phase.(got := w.phase.got[key := Fetched(s.db, key)]))), Silent)
        else (s, Silent)
      case Exec(c) => if Ready(w) then ExecStep(s, c, w) else (s, Silent)
  }

  /** A schedule is any sequence of actions. */
  function Run(s: System, schedule: seq<Action>): (System, seq<Event>)
    decreases |schedule|
  {
    if schedule == [] then (s, [])
    else
      var (s1, event) := Step(s, schedule[0]);
      var (s2, events) := Run(s1, schedule[1..]);
      (s2, [event] + events)
  }

  // ---- the invariant ----

  /** As long as no watched key changed, what a client has read is what the database holds. */
  ghost predicate ClientInv(db: Keyspace, w: Client) {
    match w
    case Idle => true
    case Clearing(seen) => KEYS_SET !in seen
    case Writing(items, strategy, phase, dirty, rounds, touches) =>
      && items != map[] && KEYS_SET !in items && strategy != Overwrite
      && (phase == Unwatched ==> !dirty && rounds <= touches)
      && (phase != Unwatched ==> rounds + (if dirty then 1 else 0) <= touches + 1)
      && (phase.Resolving? ==>
            && (strategy == Raise ==> phase.conflicts == {})
            && phase.got.Keys <= phase.conflicts <= items.Keys
            && (!dirty ==> phase.conflicts == items.Keys * Data(db).Keys
                           && forall k :: k in phase.got ==> phase.got[k] == Data(db)[k]))
  }

  ghost predicate Inv(s: System) {
    Consistent(s.db) && forall i :: 0 <= i < |s.clients| ==> ClientInv(s.db, s.clients[i])
  }

  /** Idle clients on a consistent database, an empty one for instance. */
  ghost predicate Start(s: System) {
    Consistent(s.db) && forall i :: 0 <= i < |s.clients| ==> s.clients[i] == Idle
  }

  /** Outside `touched` the two databases hold the same data. */
  ghost predicate SameBut(db: Keyspace, db': Keyspace, touched: set<Key>) {
    forall k :: k !in touched ==>
      (k in Data(db) <==> k in Data(db')) && (k in Data(db) ==> Data(db)[k] == Data(db')[k])
  }

  lemma NotifyKeepsInv(db: Keyspace, db': Keyspace, touched: set<Key>, w: Client)
    requires ClientInv(db, w) && SameBut(db, db', touched)
    ensures ClientInv(db', Notify(w, touched))
  {
    if w.Writing? && w.phase != Unwatched && w.items.Keys * touched == {} {
      assert forall k :: k in w.items ==> k !in touched by {
        assert forall k :: k in w.items && k in touched ==> k in w.items.Keys * touched;
      }
      assert w.items.Keys * Data(db).Keys == w.items.Keys * Data(db').Keys;
    }
  }

  lemma CommitKeepsInv(s: System, c: nat, db: Keyspace, touched: set<Key>)
    requires Inv(s) && c < |s.clients| && Consistent(db) && SameBut(s.db, db, touched)
    ensures Inv(Commit(s, c, db, touched))
  {
    var s' := Commit(s, c, db, touched);
    forall i | 0 <= i < |s'.clients| ensures ClientInv(s'.db, s'.clients[i]) {
      if i != c {
        NotifyKeepsInv(s.db, db, touched, s.clients[i]);
      }
    }
  }

  // ---- every step is a step of the sequential store ----

  /** How an event must change the store if calls ran one at a time. */
  ghost predicate Sequential(before: Store, event: Event, after: Store) {
    match event
    case Silent => after == before
    case Rejected => after == before
    case Wrote(items, strategy, touched) =>
      Stores.SetMany(before, items, strategy) == (after, Written) && touched == Effect(before, items, strategy).Keys
    case Raised(items, conflicts) =>
      after == before && Stores.SetMany(before, items, Raise) == (before, KeyError(conflicts))
    case Deleted(keys, touched) => after == before - keys && touched == keys * before.Keys
  }

  lemma DeleteStepIsSequential(s: System, c: nat, keys: set<Key>)
    requires Inv(s) && c < |s.clients|
    ensures var (s', event) := DeleteStep(s, c, keys);
            Inv(s') && Sequential(Data(s.db), event, Data(s'.db))
  {
    if keys != {} && KEYS_SET !in keys {
      DeleteBlockIsDelete(s.db, keys);
      CommitKeepsInv(s, c, DeleteBlock(s.db, keys), keys * s.db.Keys);
    }
  }

  lemma SetManyStepIsSequential(s: System, c: nat, items: Store, strategy: Strategy)
    requires Inv(s) && c < |s.clients|
    ensures var (s', event) := SetManyStep(s, c, items, strategy);
            Inv(s') && Sequential(Data(s.db), event, Data(s'.db))
  {
    if items != map[] && KEYS_SET !in items && strategy == Overwrite {
      WriteBlockIsWrite(s.db, items);
      OverwriteEffect(Data(s.db), items);
      CommitKeepsInv(s, c, WriteBlock(s.db, items), items.Keys);
    }
  }

  lemma ExecStepIsSequential(s: System, c: nat)
    requires Inv(s) && c < |s.clients| && Ready(s.clients[c])
    ensures var (s', event) := ExecStep(s, c, s.clients[c]);
            Inv(s') && Sequential(Data(s.db), event, Data(s'.db))
  {
    var w := s.clients[c];
    if !w.dirty {
      var toWrite := ToWrite(w.items, w.strategy, w.phase.conflicts, w.phase.got);
      ToWriteIsEffect(Data(s.db), w.items, w.strategy, w.phase.conflicts, w.phase.got);
      WriteBlockIsWrite(s.db, toWrite);
      CommitKeepsInv(s, c, WriteBlock(s.db, toWrite), toWrite.Keys);
    }
  }

  lemma ReadStepsAreSequential(s: System, a: Action)
    requires Inv(s) && a.c < |s.clients|
    requires a.Watch? || a.ReadFlags? || a.ReadValue? || a.ReadKeys?
    ensures var (s', event) := Step(s, a);
            Inv(s') && s'.db == s.db && Sequential(Data(s.db), event, Data(s'.db))
  {
    assert KEYS_SET !in Data(s.db).Keys;
  }

  /** Every step of every client, from every state that can arise, has exactly its sequential effect on
      the store just before it and keeps the index equal to the data keys. */
  lemma StepIsSequential(s: System, a: Action)
    requires Inv(s)
    ensures var (s', event) := Step(s, a);
            Inv(s') && Sequential(Data(s.db), event, Data(s'.db))
  {
    if a.c < |s.clients| {
      var w := s.clients[a.c];
      match a
      case SetMany(c, items, strategy) => SetManyStepIsSequential(s, c, items, strategy);
      case DeleteMany(c, keys) => DeleteStepIsSequential(s, c, keys);
      case ClearSeen(c) => if w.Clearing? { DeleteStepIsSequential(s, c, w.seen); }
      case Exec(c) => if Ready(w) { ExecStepIsSequential(s, c); }
      case Watch(c) => ReadStepsAreSequential(s, a);
      case ReadFlags(c) => ReadStepsAreSequential(s, a);
      case ReadValue(c, key) => ReadStepsAreSequential(s, a);
      case ReadKeys(c) => ReadStepsAreSequential(s, a);
    }
  }

  /** The store after an event, executed on its own. */
  function Apply(store: Store, event: Event): Store {
    match event
    case Silent => store
    case Rejected => store
    case Wrote(items, strategy, _) => Stores.SetMany(store, items, strategy).0
    case Raised(items, conflicts) => store
    case Deleted(keys, _) => store - keys
  }

  function Replay(store: Store, events: seq<Event>): Store
    decreases |events|
  {
    if events == [] then store else Replay(Apply(store, events[0]), events[1..])
  }

  /** Executed one at a time in this order, every event turns out as it was observed. */
  ghost predicate Explains(store: Store, events: seq<Event>)
    decreases |events|
  {
    events == [] || (Sequential(store, events[0], Apply(store, events[0]))
                     && Explains(Apply(store, events[0]), events[1..]))
  }

  /** Linearizability over whole runs: any schedule of any number of clients is explained by its events
      executed one at a time in the order they occurred, and the index is right at the end. */
  lemma {:induction false} RunsAreSequential(s: System, schedule: seq<Action>)
    requires Inv(s)
    ensures var (s', events) := Run(s, schedule);
            Inv(s') && Explains(Data(s.db), events) && Replay(Data(s.db), events) == Data(s'.db)
    decreases |schedule|
  {
    if schedule != [] {
      var (s1, event) := Step(s, schedule[0]);
      StepIsSequential(s, schedule[0]);
      RunsAreSequential(s1, schedule[1..]);
      var (s2, events) := Run(s1, schedule[1..]);
      assert ([event] + events)[1..] == events;
    }
  }

  // ---- consequences ----

  /** In every reachable state `__keys__` lists exactly the data keys and is not a data key. */
  lemma IndexIsExact(s: System, schedule: seq<Action>)
    requires Start(s)
    ensures var db := Run(s, schedule).0.db;
            && Index(db) == Data(db).Keys && KEYS_SET !in Data(db)
            && forall k :: k in db && k != KEYS_SET ==> db[k].Blob?
  {
    RunsAreSequential(s, schedule);
  }

  /** Hence clear never trips over the reserved key. */
  lemma ClearIsNeverRejected(s: System, schedule: seq<Action>, c: nat)
    requires Start(s)
    ensures var s' := Run(s, schedule).0;
            c < |s'.clients| && s'.clients[c].Clearing? ==> Step(s', ClearSeen(c)).1 != Rejected
  {
    RunsAreSequential(s, schedule);
  }

  /** The event changed the entry of one of these keys. */
  predicate Interferes(event: Event, keys: set<Key>) {
    (event.Wrote? || event.Deleted?) && event.touched * keys != {}
  }

  function Interferences(events: seq<Event>, keys: set<Key>): nat {
    if events == [] then 0
    else (if Interferes(events[0], keys) then 1 else 0) + Interferences(events[1..], keys)
  }

  /** The touches counted so far by a call on these keys. */
  function TouchesOf(s: System, c: nat, keys: set<Key>): nat {
    if c < |s.clients| && s.clients[c].Writing? && s.clients[c].items.Keys == keys then s.clients[c].touches else 0
  }

  lemma TouchesCome(s: System, a: Action, c: nat, keys: set<Key>)
    ensures var (s', event) := Step(s, a);
            TouchesOf(s', c, keys) <= TouchesOf(s, c, keys) + (if Interferes(event, keys) then 1 else 0)
  {
    if a.c < |s.clients| {
      match a
      case Exec(_) => if Ready(s.clients[a.c]) { ExecTouches(s, a.c, c, keys); }
      case SetMany(_, items, _) => CommitTouches(s, a.c, WriteBlock(s.db, items), items.Keys, c, keys);
      case DeleteMany(_, gone) => CommitTouches(s, a.c, DeleteBlock(s.db, gone), gone * s.db.Keys, c, keys);
      case ClearSeen(_) =>
        if s.clients[a.c].Clearing? {
          var seen := s.clients[a.c].seen;
          CommitTouches(s, a.c, DeleteBlock(s.db, seen), seen * s.db.Keys, c, keys);
        }
      case Watch(_) =>
      case ReadFlags(_) =>
      case ReadValue(_, _) =>
      case ReadKeys(_) =>
    }
  }

  lemma CommitTouches(s: System, doer: nat, db: Keyspace, touched: set<Key>, c: nat, keys: set<Key>)
    requires doer < |s.clients|
    ensures TouchesOf(Commit(s, doer, db, touched), c, keys)
         <= TouchesOf(s, c, keys) + (if touched * keys != {} then 1 else 0)
  {
    assert touched * keys == keys * touched;
  }

  lemma ExecTouches(s: System, doer: nat, c: nat, keys: set<Key>)
    requires doer < |s.clients| && Ready(s.clients[doer])
    ensures var (s', event) := ExecStep(s, doer, s.clients[doer]);
            TouchesOf(s', c, keys) <= TouchesOf(s, c, keys) + (if Interferes(event, keys) then 1 else 0)
  {
    var w := s.clients[doer];
    if !w.dirty {
      var toWrite := ToWrite(w.items, w.strategy, w.phase.conflicts, w.phase.got);
      CommitTouches(s, doer, WriteBlock(s.db, toWrite), toWrite.Keys, c, keys);
    }
  }

  lemma {:induction false} TouchesAreInterferences(s: System, schedule: seq<Action>, c: nat, keys: set<Key>)
    ensures var (s', events) := Run(s, schedule);
            TouchesOf(s', c, keys) <= TouchesOf(s, c, keys) + Interferences(events, keys)
    decreases |schedule|
  {
    if schedule != [] {
      var (s1, event) := Step(s, schedule[0]);
      TouchesCome(s, schedule[0], c, keys);
      TouchesAreInterferences(s1, schedule[1..], c, keys);
      var (s2, events) := Run(s1, schedule[1..]);
      assert ([event] + events)[1..] == events;
    }
  }

  /** A call in its r-th round was interfered with at least r - 1 times: each failed EXEC is charged to a
      write or delete that changed one of its keys while it was watching. The schedule may start anywhere
      before the first such touch, at the beginning of the call for instance. */
  lemma RoundsAreBounded(s: System, schedule: seq<Action>, c: nat)
    requires Inv(s) && (c < |s.clients| && s.clients[c].Writing? ==> s.clients[c].touches == 0)
    ensures var (s', events) := Run(s, schedule);
            c < |s'.clients| && s'.clients[c].Writing? ==>
              s'.clients[c].rounds <= 1 + Interferences(events, s'.clients[c].items.Keys)
  {
    RunsAreSequential(s, schedule);
    var (s', events) := Run(s, schedule);
    if c < |s'.clients| && s'.clients[c].Writing? {
      assert ClientInv(s'.db, s'.clients[c]);
      TouchesAreInterferences(s, schedule, c, s'.clients[c].items.Keys);
      assert s'.clients[c].touches <= Interferences(events, s'.clients[c].items.Keys);
      assert s'.clients[c].rounds <= s'.clients[c].touches + 1;
    }
  }

  lemma {:induction false} ReplaySplits(store: Store, events: seq<Event>, i: nat)
    requires i <= |events|
    ensures Replay(store, events) == Replay(Replay(store, events[..i]), events[i..])
    ensures Explains(store, events) ==> Explains(Replay(store, events[..i]), events[i..])
    decreases i
  {
    if i > 0 {
      ReplaySplits(Apply(store, events[0]), events[1..], i - 1);
      assert events[..i][1..] == events[1..][..i - 1] && events[1..][i - 1..] == events[i..];
    } else {
      assert events[..0] == [] && events[0..] == events;
    }
  }

  /** The event replaces or removes this field of this key. */
  predicate Replaces(event: Event, key: Key, field: Field) {
    match event
    case Wrote(items, strategy, _) =>
      key in items && (strategy == Overwrite || (strategy == Merge && field in items[key]))
    case Deleted(keys, _) => key in keys
    case _ => false
  }

  lemma FieldSurvivesEvent(store: Store, event: Event, key: Key, field: Field)
    requires key in store && field in store[key] && !Replaces(event, key, field)
    ensures var after := Apply(store, event);
            key in after && field in after[key] && after[key][field] == store[key][field]
  {
    if event.Wrote? && key in event.items && event.strategy == Raise {
      assert key in event.items.Keys * store.Keys;
    }
  }

  lemma {:induction false} FieldSurvives(store: Store, events: seq<Event>, key: Key, field: Field)
    requires key in store && field in store[key]
    requires forall e :: e in events ==> !Replaces(e, key, field)
    ensures var after := Replay(store, events);
            key in after && field in after[key] && after[key][field] == store[key][field]
    decreases |events|
  {
    if events != [] {
      assert events[0] in events;
      FieldSurvivesEvent(store, events[0], key, field);
      FieldSurvives(Apply(store, events[0]), events[1..], key, field);
    }
  }

  /** No merge is lost: in any run, a field written by a committed merge has that value at the end unless
      a later event replaced or removed it. */
  lemma MergesAreNotLost(s: System, schedule: seq<Action>, i: nat, key: Key, field: Field)
    requires Inv(s) && i < |Run(s, schedule).1|
    requires var event := Run(s, schedule).1[i];
             event.Wrote? && event.strategy == Merge && key in event.items && field in event.items[key]
    requires forall j :: i < j < |Run(s, schedule).1| ==> !Replaces(Run(s, schedule).1[j], key, field)
    ensures var after := Data(Run(s, schedule).0.db);
            key in after && field in after[key]
            && after[key][field] == Run(s, schedule).1[i].items[key][field]
  {
    var events := Run(s, schedule).1;
    RunsAreSequential(s, schedule);
    ReplaySplits(Data(s.db), events, i);
    var middle := Replay(Data(s.db), events[..i]);
    assert events[i..][0] == events[i] && events[i..][1..] == events[i + 1..];
    var next := Apply(middle, events[i]);
    assert key in next && field in next[key];
    FieldSurvives(next, events[i + 1..], key, field);
  }

  lemma RaiseFailsOnPresent(store: Store, event: Event, key: Key)
    requires event.Wrote? && event.strategy == Raise && key in event.items && key in store
    ensures !Sequential(store, event, Apply(store, event))
  {
    assert key in event.items.Keys * store.Keys;
  }

  lemma {:induction false} RaiseNeedsDelete(store: Store, events: seq<Event>, m: nat, key: Key)
    requires Explains(store, events) && key in store && m < |events|
    requires events[m].Wrote? && events[m].strategy == Raise && key in events[m].items
    ensures exists n :: 0 <= n < m && events[n].Deleted? && key in events[n].keys
    decreases m
  {
    if m == 0 {
      RaiseFailsOnPresent(store, events[0], key);
    } else if !(events[0].Deleted? && key in events[0].keys) {
      RaiseNeedsDelete(Apply(store, events[0]), events[1..], m - 1, key);
      var n :| 0 <= n < m - 1 && events[1..][n].Deleted? && key in events[1..][n].keys;
      assert events[n + 1] == events[1..][n];
    }
  }

  /** At most one winner: between two committed "raise" writes of the same key the key was deleted. */
  lemma OneWinner(s: System, schedule: seq<Action>, i: nat, j: nat, key: Key)
    requires Inv(s) && i < j < |Run(s, schedule).1|
    requires forall n :: n == i || n == j ==>
               var event := Run(s, schedule).1[n];
               event.Wrote? && event.strategy == Raise && key in event.items
    ensures exists n :: i < n < j && Run(s, schedule).1[n].Deleted? && key in Run(s, schedule).1[n].keys
  {
    var events := Run(s, schedule).1;
    RunsAreSequential(s, schedule);
    ReplaySplits(Data(s.db), events, i);
    var middle, rest := Replay(Data(s.db), events[..i]), events[i..];
    assert rest[0] == events[i];
    var next := Apply(middle, rest[0]);
    KeyIsWritten(middle, rest[0], key);
    assert rest[1..][j - i - 1] == events[j];
    RaiseNeedsDelete(next, rest[1..], j - i - 1, key);
    var n :| 0 <= n < j - i - 1 && rest[1..][n].Deleted? && key in rest[1..][n].keys;
    assert events[i + 1 + n] == rest[1..][n];
  }

  lemma KeyIsWritten(store: Store, event: Event, key: Key)
    requires event.Wrote? && key in event.items && Sequential(store, event, Apply(store, event))
    ensures key in Apply(store, event)
  {
    assert Apply(store, event) == store + Effect(store, event.items, event.strategy);
  }

  /** The steps a client still has to take if nobody interferes: the rest of its round, and a whole round more
      if EXEC is going to fail. */
  ghost function RoundSteps(w: Client): nat
    requires w.Writing?
  {
    (match w.phase
     case Unwatched => |w.items.Keys| + 3
     case Watched => |w.items.Keys| + 2
     case Resolving(conflicts, got) => 1 + (if w.strategy == Merge then |conflicts - got.Keys| else 0))
    + if w.dirty then |w.items.Keys| + 3 else 0
  }

  /** WATCH starts a round. A transaction that fails writes nothing and leaves the call ready for the next
      round, with the same arguments. */
  lemma WatchErrorRetries(s: System, c: nat)
    requires c < |s.clients| && s.clients[c].Writing?
    ensures s.clients[c].phase == Unwatched ==>
              Step(s, Watch(c))
              == (Become(s, c, s.clients[c].(phase := Watched, rounds := s.clients[c].rounds + 1)), Silent)
    ensures Ready(s.clients[c]) && s.clients[c].dirty ==>
              Step(s, Exec(c)) == (Become(s, c, s.clients[c].(phase := Unwatched, dirty := false)), Silent)
  {
  }

  ghost function NextAction(c: nat, w: Client): (a: Action)
    requires w.Writing?
    ensures a.c == c
  {
    match w.phase
    case Unwatched => Watch(c)
    case Watched => ReadFlags(c)
    case Resolving(conflicts, got) =>
      if w.strategy == Merge && conflicts - got.Keys != {} then
        var k :| k in conflicts - got.Keys; ReadValue(c, k)
      else Exec(c)
  }

  /** The event is the end of a call with these arguments. */
  predicate EndsCall(event: Event, items: Store, strategy: Strategy) {
    || (event.Wrote? && event.items == items && event.strategy == strategy)
    || (event.Raised? && event.items == items && strategy == Raise)
  }

  /** The step ends the call or brings its round closer to the end. */
  ghost predicate Progresses(s: System, c: nat, w: Client, outcome: (System, Event))
    requires w.Writing?
  {
    && |outcome.0.clients| == |s.clients| && c < |s.clients|
    && if outcome.0.clients[c] == Idle then EndsCall(outcome.1, w.items, w.strategy)
       else outcome.1 == Silent && outcome.0.clients[c].Writing?
            && outcome.0.clients[c].items == w.items && outcome.0.clients[c].strategy == w.strategy
            && RoundSteps(outcome.0.clients[c]) < RoundSteps(w)
  }

  lemma FlagsStepProgresses(s: System, c: nat, w: Client)
    requires c < |s.clients| && w.Writing? && w.phase == Watched
    ensures Progresses(s, c, w, FlagsStep(s, c, w))
  {
    var conflicts := w.items.Keys * Index(s.db);
    if w.strategy != Raise || conflicts == {} {
      var w' := w.(phase := Resolving(conflicts, map[]));
      ResolvingSteps(w, w');
      assert FlagsStep(s, c, w) == (Become(s, c, w'), Silent);
    }
  }

  lemma ResolvingSteps(w: Client, w': Client)
    requires w.Writing? && w.phase == Watched
    requires w'.Writing? && w'.phase.Resolving? && w'.phase.conflicts <= w.items.Keys
    requires w'.dirty == w.dirty && w'.items == w.items
    ensures RoundSteps(w') < RoundSteps(w)
  {
    SubsetIsSmaller(w'.phase.conflicts - w'.phase.got.Keys, w.items.Keys);
  }

  lemma ReadValueProgresses(s: System, c: nat, w: Client, k: Key)
    requires c < |s.clients| && w == s.clients[c] && w.Writing? && w.phase.Resolving? && w.strategy == Merge
    requires k in w.phase.conflicts - w.phase.got.Keys
    ensures Progresses(s, c, w, Step(s, ReadValue(c, k)))
  {
    var got := w.phase.got[k := Fetched(s.db, k)];
    assert k !in w.phase.conflicts - got.Keys;
    SubsetIsSmaller(w.phase.conflicts - got.Keys, w.phase.conflicts - w.phase.got.Keys);
  }

  lemma NextActionProgresses(s: System, c: nat)
    requires Inv(s) && c < |s.clients| && s.clients[c].Writing?
    ensures Progresses(s, c, s.clients[c], Step(s, NextAction(c, s.clients[c])))
  {
    var w := s.clients[c];
    assert ClientInv(s.db, w);
    match w.phase
    case Unwatched =>
    case Watched => FlagsStepProgresses(s, c, w);
    case Resolving(conflicts, got) =>
      if w.strategy == Merge && conflicts - got.Keys != {} {
        ReadValueProgresses(s, c, w, NextAction(c, w).key);
      } else {
        assert w.strategy == Merge ==> forall k :: k in conflicts ==> k in got.Keys || k in conflicts - got.Keys;
        assert w.strategy == Merge ==> got.Keys == conflicts;
      }
  }

  /** Wherever a call stands, and whether or not its present round is going to fail: if nobody interferes any
      more it ends, after at most the rest of this round and one more. */
  lemma {:induction false} QuietRoundFinishes(s: System, c: nat) returns (schedule: seq<Action>)
    requires Inv(s) && c < |s.clients| && s.clients[c].Writing?
    ensures 0 < |schedule| <= RoundSteps(s.clients[c])
    ensures forall a :: a in schedule ==> a.c == c
    ensures Finishes(Run(s, schedule), c, s.clients[c].items, s.clients[c].strategy)
    decreases RoundSteps(s.clients[c])
  {
    var a := NextAction(c, s.clients[c]);
    StepIsSequential(s, a);
    NextActionProgresses(s, c);
    var (s', event) := Step(s, a);
    if s'.clients[c] == Idle {
      schedule := [a];
      FinishesNow(s, a, c, s.clients[c].items, s.clients[c].strategy);
    } else {
      var rest := QuietRoundFinishes(s', c);
      schedule := [a] + rest;
      FinishesLater(s, a, rest, c, s.clients[c].items, s.clients[c].strategy);
    }
  }

  /** The client is idle again, the last event is the end of its call, and nothing else was observed. */
  ghost predicate Finishes(outcome: (System, seq<Event>), c: nat, items: Store, strategy: Strategy) {
    && c < |outcome.0.clients| && outcome.0.clients[c] == Idle
    && OnlyLast(outcome.1) && EndsCall(outcome.1[|outcome.1| - 1], items, strategy)
  }

  ghost predicate OnlyLast(events: seq<Event>) {
    events != [] && forall i :: 0 <= i < |events| - 1 ==> events[i] == Silent
  }

  lemma FinishesNow(s: System, a: Action, c: nat, items: Store, strategy: Strategy)
    requires c < |Step(s, a).0.clients| && Step(s, a).0.clients[c] == Idle && EndsCall(Step(s, a).1, items, strategy)
    ensures Finishes(Run(s, [a]), c, items, strategy)
  {
    var (s', event) := Step(s, a);
    assert [a][1..] == [] && Run(s', [a][1..]) == (s', []);
    assert Run(s, [a]).1 == [event];
  }

  lemma FinishesLater(s: System, a: Action, rest: seq<Action>, c: nat, items: Store, strategy: Strategy)
    requires Step(s, a).1 == Silent && Finishes(Run(Step(s, a).0, rest), c, items, strategy)
    ensures Finishes(Run(s, [a] + rest), c, items, strategy)
  {
    assert ([a] + rest)[1..] == rest;
    var events := Run(Step(s, a).0, rest).1;
    assert Run(s, [a] + rest).1 == [Silent] + events;
  }

  // ---- what each call does ----

  /** Starting set_many: nothing for no items, an error for the reserved key, the write at once for
      "overwrite", otherwise the rounds of WATCH and EXEC. */
  lemma SetManyStarts(s: System, c: nat, items: Store, strategy: Strategy)
    requires Inv(s) && c < |s.clients| && s.clients[c] == Idle
    ensures var (s', event) := Step(s, SetMany(c, items, strategy));
            && |s'.clients| == |s.clients|
            && (items == map[] ==> s' == s && event == Silent)
            && (items != map[] && KEYS_SET in items ==> s' == s && event == Rejected)
            && (items != map[] && KEYS_SET !in items && strategy == Overwrite ==>
                  s'.clients[c] == Idle && event == Wrote(items, Overwrite, items.Keys)
                  && Data(s'.db) == Data(s.db) + items)
            && (items != map[] && KEYS_SET !in items && strategy != Overwrite ==>
                  s'.db == s.db && event == Silent
                  && s'.clients[c] == Writing(items, strategy, Unwatched, false, 0, 0))
  {
    if KEYS_SET !in items {
      WriteBlockIsWrite(s.db, items);
    }
  }

  /** The reserved key by name. */
  lemma ReservedKeyIsRejected(s: System, c: nat, items: Store, strategy: Strategy, keys: set<Key>)
    requires c < |s.clients| && s.clients[c] == Idle && "__keys__" in items && "__keys__" in keys
    ensures Step(s, SetMany(c, items, strategy)).1 == Rejected && Step(s, DeleteMany(c, keys)).1 == Rejected
    ensures Step(s, SetMany(c, items, strategy)).0.db == s.db && Step(s, DeleteMany(c, keys)).0.db == s.db
  {
  }

  /** delete_many: nothing for no keys, an error for the reserved key, otherwise exactly the keys go. */
  lemma DeleteManyDeletes(s: System, c: nat, keys: set<Key>)
    requires Inv(s) && c < |s.clients| && s.clients[c] == Idle
    ensures var (s', event) := Step(s, DeleteMany(c, keys));
            && |s'.clients| == |s.clients| && s'.clients[c] == Idle
            && (keys == {} ==> s'.db == s.db && event == Silent)
            && (KEYS_SET in keys ==> s'.db == s.db && event == Rejected)
            && (keys != {} && KEYS_SET !in keys ==>
                  event == Deleted(keys, keys * Data(s.db).Keys) && Data(s'.db) == Data(s.db) - keys)
  {
    if KEYS_SET !in keys {
      DeleteBlockIsDelete(s.db, keys);
    }
  }

  /** clear by one client alone leaves nothing. */
  lemma ClearEmpties(s: System, c: nat)
    requires Inv(s) && c < |s.clients| && s.clients[c] == Idle
    ensures var s' := Step(Step(s, ReadKeys(c)).0, ClearSeen(c)).0;
            c < |s'.clients| && s'.clients[c] == Idle && Data(s'.db) == map[] && Index(s'.db) == {}
  {
    var keys := Index(s.db);
    assert KEYS_SET !in Data(s.db).Keys;
    if keys != {} {
      DeleteBlockIsDelete(s.db, keys);
    }
  }

  lemma {:induction false} LastEventDecides(store: Store, events: seq<Event>)
    requires OnlyLast(events) && Explains(store, events)
    ensures var last := events[|events| - 1];
            Replay(store, events) == Apply(store, last) && Sequential(store, last, Apply(store, last))
    decreases |events|
  {
    if |events| > 1 {
      assert events[0] == Silent;
      LastEventDecides(store, events[1..]);
    } else {
      assert events[1..] == [];
    }
  }

  /** Every call works: started by an idle client and left undisturbed, it ends with exactly the sequential
      result, the store and the error both. */
  lemma UndisturbedCall(s: System, c: nat, items: Store, strategy: Strategy) returns (schedule: seq<Action>)
    requires Inv(s) && c < |s.clients| && s.clients[c] == Idle && items != map[] && KEYS_SET !in items
    ensures schedule != [] && schedule[0] == SetMany(c, items, strategy) && forall a :: a in schedule ==> a.c == c
    ensures var (s', events) := Run(s, schedule);
            var (after, out) := Stores.SetMany(Data(s.db), items, strategy);
            && Finishes((s', events), c, items, strategy) && Data(s'.db) == after
            && match out
               case KeyError(conflicts) => events[|events| - 1] == Raised(items, conflicts)
               case _ => events[|events| - 1].Wrote?
  {
    var a := SetMany(c, items, strategy);
    SetManyStarts(s, c, items, strategy);
    if strategy == Overwrite {
      schedule := [a];
      FinishesNow(s, a, c, items, strategy);
    } else {
      StepIsSequential(s, a);
      var rest := QuietRoundFinishes(Step(s, a).0, c);
      schedule := [a] + rest;
      FinishesLater(s, a, rest, c, items, strategy);
    }
    RunsAreSequential(s, schedule);
    LastEventDecides(Data(s.db), Run(s, schedule).1);
    EndIsSequential(Data(s.db), Run(s, schedule).1[|Run(s, schedule).1| - 1], items, strategy);
  }

  lemma EndIsSequential(store: Store, event: Event, items: Store, strategy: Strategy)
    requires EndsCall(event, items, strategy) && Sequential(store, event, Apply(store, event))
    ensures var (after, out) := Stores.SetMany(store, items, strategy);
            && Apply(store, event) == after
            && match out
               case KeyError(conflicts) => event == Raised(items, conflicts)
               case _ => event.Wrote?
  {
  }
}
