/** All locks of the Postgres writers: advisory locks of the conflict-resolving calls, and the row locks every
    transaction takes one by one as it writes. Only the locks are modelled, so that any interleaving counts. */
module PostgresRowLocks {
  import opened Basics
  import opened Stores
  import L = PostgresLocks

  datatype Lock = Advisory(id: int) | Row(key: Key)

  /** The keys one transaction locks. `Taking`: a call that first takes an advisory lock per key, in the order
      of `plan`, and then writes `rows` in the order of its dict. `Free`: an overwrite or delete, which takes no
      advisory lock and meets its rows in any order. */
  datatype Call =
    | Taking(plan: seq<Key>, rows: seq<Key>)
    | Free(rows: seq<Key>)

  /** A transaction keeps the first `held` locks it wants until it ends. */
  datatype Session = Idle | Open(call: Call, held: nat)

  type Sessions = seq<Session>

  datatype Action =
    | Begin(c: nat, call: Call)
    | Acquire(c: nat)
    | End(c: nat)              // commit, KeyError or any other end

  function AdvisoryLocks(env: L.Env, plan: seq<Key>): seq<Lock> {
    seq(|plan|, i requires 0 <= i < |plan| => Advisory(env.hash(plan[i])))
  }

  function RowLocks(rows: seq<Key>): seq<Lock> {
    seq(|rows|, i requires 0 <= i < |rows| => Row(rows[i]))
  }

  /** What a transaction locks, in order. */
  function Wants(env: L.Env, call: Call): seq<Lock> {
    match call
    case Taking(plan, rows) => AdvisoryLocks(env, plan) + RowLocks(rows)
    case Free(rows) => RowLocks(rows)
  }

  predicate Holds(env: L.Env, w: Session, lock: Lock) {
    w.Open? && exists i :: 0 <= i < w.held && i < |Wants(env, w.call)| && Wants(env, w.call)[i] == lock
  }

  predicate Waiting(env: L.Env, w: Session) {
    w.Open? && w.held < |Wants(env, w.call)|
  }

  function NextLock(env: L.Env, w: Session): Lock
    requires Waiting(env, w)
  {
    Wants(env, w.call)[w.held]
  }

  /** Session u makes session w wait. */
  predicate Blocks(env: L.Env, s: Sessions, u: nat, w: nat) {
    && u < |s| && w < |s| && u != w
    && Waiting(env, s[w]) && Holds(env, s[u], NextLock(env, s[w]))
  }

  predicate Blocked(env: L.Env, s: Sessions, w: nat) {
    exists u :: 0 <= u < |s| && Blocks(env, s, u, w)
  }

  ghost predicate NoRepeats(keys: seq<Key>) {
    forall i, j :: 0 <= i < j < |keys| ==> keys[i] != keys[j]
  }

  function Members(keys: seq<Key>): set<Key> {
    set k | k in keys
  }

  /** The calls in play: conflict-resolving ones on any of `keys`, lock-free ones on one of the sets `free`. A
      transaction may write fewer rows than it has keys, and each of them once. */
  ghost predicate InPlay(env: L.Env, keys: set<Key>, free: set<set<Key>>, call: Call) {
    && NoRepeats(call.rows)
    && match call
       case Taking(plan, rows) =>
         L.IsPlan(env, plan, Members(plan)) && Members(plan) <= keys && Members(rows) <= Members(plan)
       case Free(rows) => exists ks :: ks in free && Members(rows) <= ks
  }

  /** An action that does not fit the state of its session, or that has to wait, is not taken. */
  ghost function Step(env: L.Env, keys: set<Key>, free: set<set<Key>>, s: Sessions, a: Action): Sessions {
    if a.c >= |s| then s
    else
      match a
      case Begin(c, call) => if s[c].Idle? && InPlay(env, keys, free, call) then s[c := Open(call, 0)] else s
      case Acquire(c) => if Waiting(env, s[c]) && !Blocked(env, s, c) then s[c := s[c].(held := s[c].held + 1)] else s
      case End(c) => s[c := Idle]
  }

  ghost function Run(env: L.Env, keys: set<Key>, free: set<set<Key>>, s: Sessions, schedule: seq<Action>): Sessions {
    if schedule == [] then s
    else
      Step(env, keys, free, Run(env, keys, free, s, schedule[..|schedule| - 1]), schedule[|schedule| - 1])
  }

  ghost predicate Start(s: Sessions) {
    forall i :: 0 <= i < |s| ==> s[i] == Idle
  }

  // ---- invariant ----

  /** No lock has two holders. */
  ghost predicate Exclusive(env: L.Env, s: Sessions) {
    forall u, w, lock ::
      0 <= u < |s| && 0 <= w < |s| && Holds(env, s[u], lock) && Holds(env, s[w], lock) ==> u == w
  }

  ghost predicate Inv(env: L.Env, keys: set<Key>, free: set<set<Key>>, s: Sessions) {
    AllInPlay(env, keys, free, s) && Exclusive(env, s)
  }

  ghost predicate AllInPlay(env: L.Env, keys: set<Key>, free: set<set<Key>>, s: Sessions) {
    forall i :: 0 <= i < |s| && s[i].Open? ==> InPlay(env, keys, free, s[i].call)
  }

  lemma OneMoreInPlay(env: L.Env, keys: set<Key>, free: set<set<Key>>, s: Sessions, c: nat, w: Session)
    requires AllInPlay(env, keys, free, s) && c < |s| && (w.Open? ==> InPlay(env, keys, free, w.call))
    ensures AllInPlay(env, keys, free, s[c := w])
  {
  }

  lemma AcquireStaysExclusive(env: L.Env, s: Sessions, c: nat)
    requires Exclusive(env, s) && c < |s| && Waiting(env, s[c]) && !Blocked(env, s, c)
    ensures Exclusive(env, s[c := s[c].(held := s[c].held + 1)])
  {
    var w := s[c];
    var w' := w.(held := w.held + 1);
    var s' := s[c := w'];
    forall lock | Holds(env, w', lock) ensures lock == NextLock(env, w) || Holds(env, w, lock) {
    }
    forall u, v, lock | 0 <= u < |s| && 0 <= v < |s| && Holds(env, s'[u], lock) && Holds(env, s'[v], lock)
      ensures u == v
    {
      if u != v && (u == c || v == c) {
        var other := if u == c then v else u;
        if lock == NextLock(env, w) {
          assert Blocks(env, s, other, c);
        }
      }
    }
  }

  lemma FewerLocksStayExclusive(env: L.Env, s: Sessions, c: nat, w: Session)
    requires Exclusive(env, s) && c < |s| && forall lock :: !Holds(env, w, lock)
    ensures Exclusive(env, s[c := w])
  {
  }

  lemma StepKeepsInv(env: L.Env, keys: set<Key>, free: set<set<Key>>, s: Sessions, a: Action)
    requires Inv(env, keys, free, s)
    ensures Inv(env, keys, free, Step(env, keys, free, s, a))
  {
    if a.c < |s| {
      match a
      case Begin(c, call) =>
        if s[c].Idle? && InPlay(env, keys, free, call) {
          OneMoreInPlay(env, keys, free, s, c, Open(call, 0));
          FewerLocksStayExclusive(env, s, c, Open(call, 0));
        }
      case Acquire(c) =>
        if Waiting(env, s[c]) && !Blocked(env, s, c) {
          OneMoreInPlay(env, keys, free, s, c, s[c].(held := s[c].held + 1));
          AcquireStaysExclusive(env, s, c);
        }
      case End(c) =>
        OneMoreInPlay(env, keys, free, s, c, Idle);
        FewerLocksStayExclusive(env, s, c, Idle);
    }
  }

  lemma {:induction false} RunKeepsInv(env: L.Env, keys: set<Key>, free: set<set<Key>>, s: Sessions,
                                    schedule: seq<Action>)
    requires Start(s)
    ensures Inv(env, keys, free, Run(env, keys, free, s, schedule))
  {
    if schedule != [] {
      RunKeepsInv(env, keys, free, s, schedule[..|schedule| - 1]);
      StepKeepsInv(env, keys, free, Run(env, keys, free, s, schedule[..|schedule| - 1]), schedule[|schedule| - 1]);
    }
  }

  // ---- no wait cycle ----

  predicate BlockedWithin(env: L.Env, s: Sessions, group: set<nat>, w: nat) {
    exists u :: u in group && Blocks(env, s, u, w)
  }

  /** Every session of the group waits for another one of the group. */
  ghost predicate Deadlocked(env: L.Env, s: Sessions, group: set<nat>) {
    group != {} && forall w {:trigger BlockedWithin(env, s, group, w)} :: w in group ==> BlockedWithin(env, s, group, w)
  }

  lemma Blocker(env: L.Env, s: Sessions, group: set<nat>, w: nat) returns (u: nat)
    requires Deadlocked(env, s, group) && w in group
    ensures u in group && Blocks(env, s, u, w) && Waiting(env, s[u])
  {
    assert BlockedWithin(env, s, group, w);
    u :| u in group && Blocks(env, s, u, w);
    assert BlockedWithin(env, s, group, u);
  }

  /** Lock-free transactions have at most one key. */
  ghost predicate Narrow(free: set<set<Key>>) {
    forall ks :: ks in free ==> |ks| <= 1
  }

  lemma TwoMembers(ks: set<Key>, a: Key, b: Key)
    requires a in ks && b in ks && a != b
    ensures |ks| >= 2
  {
    SubsetIsSmaller({a, b}, ks);
  }

  /** A lock-free transaction of one key that waits holds nothing, so it makes nobody wait. */
  lemma WaitingHolderTakes(env: L.Env, keys: set<Key>, free: set<set<Key>>, w: Session, lock: Lock)
    requires Narrow(free) && w.Open? && InPlay(env, keys, free, w.call)
    requires Waiting(env, w) && Holds(env, w, lock)
    ensures w.call.Taking?
  {
    if w.call.Free? {
      var rows := w.call.rows;
      var ks :| ks in free && Members(rows) <= ks;
      assert rows[0] in Members(rows) && rows[1] in Members(rows);
      TwoMembers(ks, rows[0], rows[1]);
    }
  }

  /** A transaction at its rows holds the advisory locks of all its keys. */
  lemma HoldsItsAdvisoryLocks(env: L.Env, keys: set<Key>, free: set<set<Key>>, w: Session, k: Key)
    requires w.Open? && w.call.Taking? && InPlay(env, keys, free, w.call)
    requires w.held >= |w.call.plan| && k in w.call.rows
    ensures Holds(env, w, Advisory(env.hash(k)))
  {
    assert k in Members(w.call.rows) && k in w.call.plan;
    var i :| 0 <= i < |w.call.plan| && w.call.plan[i] == k;
    assert Wants(env, w.call)[i] == Advisory(env.hash(k));
  }

  lemma HeldRow(env: L.Env, w: Session, k: Key)
    requires w.Open? && w.call.Taking? && Holds(env, w, Row(k))
    ensures w.held >= |w.call.plan| && k in w.call.rows
  {
    var i :| 0 <= i < w.held && i < |Wants(env, w.call)| && Wants(env, w.call)[i] == Row(k);
    assert i >= |w.call.plan| && Wants(env, w.call)[i] == RowLocks(w.call.rows)[i - |w.call.plan|];
  }

  lemma HeldAdvisory(env: L.Env, w: Session, id: int) returns (i: nat)
    requires w.Open? && w.call.Taking? && Holds(env, w, Advisory(id))
    ensures i < w.held && i < |w.call.plan| && env.hash(w.call.plan[i]) == id
  {
    i :| 0 <= i < w.held && i < |Wants(env, w.call)| && Wants(env, w.call)[i] == Advisory(id);
  }

  /** Two conflict-resolving transactions never meet at a row: their advisory locks kept them apart. */
  lemma TakersMeetAtAdvisoryLocks(env: L.Env, keys: set<Key>, free: set<set<Key>>, s: Sessions, u: nat, w: nat)
    requires Inv(env, keys, free, s) && Blocks(env, s, u, w) && s[u].call.Taking? && s[w].call.Taking?
    ensures s[w].held < |s[w].call.plan|
  {
    if s[w].held >= |s[w].call.plan| {
      var k := s[w].call.rows[s[w].held - |s[w].call.plan|];
      assert NextLock(env, s[w]) == Row(k);
      HeldRow(env, s[u], k);
      HoldsItsAdvisoryLocks(env, keys, free, s[u], k);
      HoldsItsAdvisoryLocks(env, keys, free, s[w], k);
    }
  }

  function NextOrder(env: L.Env, s: Sessions, w: nat): int {
    if w < |s| && s[w].Open? && s[w].call.Taking? && s[w].held < |s[w].call.plan|
    then env.order(s[w].call.plan[s[w].held]) else 0
  }

  lemma {:induction false} LastWaiter(env: L.Env, s: Sessions, group: set<nat>) returns (w: nat)
    requires group != {}
    ensures w in group && forall u :: u in group ==> NextOrder(env, s, u) <= NextOrder(env, s, w)
    decreases |group|
  {
    w :| w in group;
    if group != {w} {
      var other := LastWaiter(env, s, group - {w});
      if NextOrder(env, s, w) < NextOrder(env, s, other) {
        w := other;
      }
    }
  }

  /** If what the last waiter wants is held by someone who wants nothing later, both want the same lock. */
  lemma HolderWantsSameLock(env: L.Env, keys: set<Key>, free: set<set<Key>>, u: Session, w: Session)
    requires L.TotalOrder(env, keys) && L.Convex(env, keys)
    requires u.Open? && u.call.Taking? && InPlay(env, keys, free, u.call) && u.held < |u.call.plan|
    requires w.Open? && w.call.Taking? && InPlay(env, keys, free, w.call) && w.held < |w.call.plan|
    requires Holds(env, u, NextLock(env, w))
    requires env.order(u.call.plan[u.held]) <= env.order(w.call.plan[w.held])
    ensures NextLock(env, u) == NextLock(env, w)
  {
    var p, q := u.call.plan, w.call.plan;
    assert NextLock(env, w) == Advisory(env.hash(q[w.held])) && NextLock(env, u) == Advisory(env.hash(p[u.held]));
    var i := HeldAdvisory(env, u, env.hash(q[w.held]));
    assert env.order(p[i]) < env.order(p[u.held]);
    assert p[i] in Members(p) && p[u.held] in Members(p) && q[w.held] in Members(q);
    if env.order(p[u.held]) < env.order(q[w.held]) {
      assert env.hash(p[u.held]) == env.hash(p[i]);
    }
  }

  function Takers(s: Sessions, group: set<nat>): set<nat> {
    set w | w in group && w < |s| && s[w].Open? && s[w].call.Taking?
  }

  lemma TakingBlocker(env: L.Env, keys: set<Key>, free: set<set<Key>>, s: Sessions, group: set<nat>, w: nat)
    returns (u: nat)
    requires Inv(env, keys, free, s) && Narrow(free) && Deadlocked(env, s, group) && w in group
    ensures u in Takers(s, group) && Blocks(env, s, u, w)
  {
    u := Blocker(env, s, group, w);
    WaitingHolderTakes(env, keys, free, s[u], NextLock(env, s[w]));
  }

  lemma TakerIsBlocked(env: L.Env, keys: set<Key>, free: set<set<Key>>, s: Sessions, group: set<nat>, w: nat)
    requires Inv(env, keys, free, s) && Narrow(free) && Deadlocked(env, s, group) && w in Takers(s, group)
    ensures AtAdvisoryLocks(s, w) && BlockedWithin(env, s, Takers(s, group), w)
  {
    var u := TakingBlocker(env, keys, free, s, group, w);
    TakersMeetAtAdvisoryLocks(env, keys, free, s, u, w);
  }

  predicate AtAdvisoryLocks(s: Sessions, w: nat) {
    w < |s| && s[w].Open? && s[w].call.Taking? && s[w].held < |s[w].call.plan|
  }

  lemma TakersExist(env: L.Env, keys: set<Key>, free: set<set<Key>>, s: Sessions, group: set<nat>)
    requires Inv(env, keys, free, s) && Narrow(free) && Deadlocked(env, s, group)
    ensures Takers(s, group) != {}
  {
    var any :| any in group;
    var first := TakingBlocker(env, keys, free, s, group, any);
  }

  /** The conflict-resolving members of a deadlock are a deadlock of their own, at their advisory locks. */
  lemma TakersAreDeadlocked(env: L.Env, keys: set<Key>, free: set<set<Key>>, s: Sessions, group: set<nat>)
    requires Inv(env, keys, free, s) && Narrow(free) && Deadlocked(env, s, group)
    ensures Deadlocked(env, s, Takers(s, group))
    ensures forall w :: w in Takers(s, group) ==> AtAdvisoryLocks(s, w)
  {
    TakersExist(env, keys, free, s, group);
    forall w | w in Takers(s, group)
      ensures AtAdvisoryLocks(s, w) && BlockedWithin(env, s, Takers(s, group), w)
    {
      TakerIsBlocked(env, keys, free, s, group, w);
    }
  }

  lemma NoCycle(env: L.Env, keys: set<Key>, free: set<set<Key>>, s: Sessions, group: set<nat>)
    requires L.TotalOrder(env, keys) && L.Convex(env, keys) && Narrow(free) && Inv(env, keys, free, s)
    ensures !Deadlocked(env, s, group)
  {
    if Deadlocked(env, s, group) {
      var takers := Takers(s, group);
      TakersAreDeadlocked(env, keys, free, s, group);
      var w := LastWaiter(env, s, takers);
      var u := Blocker(env, s, takers, w);
      var v := Blocker(env, s, takers, u);
      assert AtAdvisoryLocks(s, u) && AtAdvisoryLocks(s, w) && NextOrder(env, s, u) <= NextOrder(env, s, w);
      HolderWantsSameLock(env, keys, free, s[u], s[w]);
      HolderIsNotBlocked(env, s, v, u);
    }
  }

  lemma HolderIsNotBlocked(env: L.Env, s: Sessions, v: nat, u: nat)
    requires Exclusive(env, s) && u < |s| && Waiting(env, s[u]) && Holds(env, s[u], NextLock(env, s[u]))
    ensures !Blocks(env, s, v, u)
  {
  }

  // ---- runs that deadlock ----

  /** Two calls, each having the lock the other wants next. */
  lemma CrossedCallsDeadlock(env: L.Env, keys: set<Key>, free: set<set<Key>>, a: Call, b: Call, x: Lock, y: Lock)
    requires InPlay(env, keys, free, a) && InPlay(env, keys, free, b) && x != y
    requires Wants(env, a) == [x, y] && Wants(env, b) == [y, x]
    ensures !NeverDeadlocks(env, keys, free)
  {
    var s0 := [Idle, Idle];
    var s4 := [Open(a, 1), Open(b, 1)];
    var schedule := [Begin(0, a), Begin(1, b), Acquire(0), Acquire(1)];
    CrossedRun(env, keys, free, a, b, x, y);
    CrossedStateIsDeadlocked(env, s4, x, y);
    assert Start(s0) && Deadlocked(env, Run(env, keys, free, s0, schedule), {0, 1});
  }

  lemma CrossedStateIsDeadlocked(env: L.Env, s: Sessions, x: Lock, y: Lock)
    requires |s| == 2 && Holds(env, s[0], x) && Holds(env, s[1], y)
    requires Waiting(env, s[0]) && NextLock(env, s[0]) == y && Waiting(env, s[1]) && NextLock(env, s[1]) == x
    ensures Deadlocked(env, s, {0, 1})
  {
    assert Blocks(env, s, 1, 0) && Blocks(env, s, 0, 1);
    assert BlockedWithin(env, s, {0, 1}, 0) && BlockedWithin(env, s, {0, 1}, 1);
  }

  lemma RunStep(env: L.Env, keys: set<Key>, free: set<set<Key>>, s: Sessions, schedule: seq<Action>, a: Action)
    ensures Run(env, keys, free, s, schedule + [a]) == Step(env, keys, free, Run(env, keys, free, s, schedule), a)
  {
    assert (schedule + [a])[..|schedule|] == schedule;
  }

  lemma CrossedRun(env: L.Env, keys: set<Key>, free: set<set<Key>>, a: Call, b: Call, x: Lock, y: Lock)
    requires InPlay(env, keys, free, a) && InPlay(env, keys, free, b) && x != y
    requires Wants(env, a) == [x, y] && Wants(env, b) == [y, x]
    ensures Run(env, keys, free, [Idle, Idle], [Begin(0, a), Begin(1, b), Acquire(0), Acquire(1)])
         == [Open(a, 1), Open(b, 1)]
    ensures Holds(env, Open(a, 1), x) && Holds(env, Open(b, 1), y)
  {
    BothBegin(env, keys, free, a, b);
    var begun := [Begin(0, a), Begin(1, b)];
    FirstLock(env, keys, free, [Open(a, 0), Open(b, 0)], 0);
    RunStep(env, keys, free, [Idle, Idle], begun, Acquire(0));
    assert Wants(env, a)[0] == x && Wants(env, b)[0] == y;
    assert forall lock :: Holds(env, Open(a, 1), lock) ==> lock == x;
    FirstLock(env, keys, free, [Open(a, 1), Open(b, 0)], 1);
    RunStep(env, keys, free, [Idle, Idle], begun + [Acquire(0)], Acquire(1));
    assert begun + [Acquire(0)] + [Acquire(1)] == [Begin(0, a), Begin(1, b), Acquire(0), Acquire(1)];
  }

  lemma BothBegin(env: L.Env, keys: set<Key>, free: set<set<Key>>, a: Call, b: Call)
    requires InPlay(env, keys, free, a) && InPlay(env, keys, free, b)
    ensures Run(env, keys, free, [Idle, Idle], [Begin(0, a), Begin(1, b)]) == [Open(a, 0), Open(b, 0)]
  {
    var s0: Sessions := [Idle, Idle];
    RunStep(env, keys, free, s0, [], Begin(0, a));
    RunStep(env, keys, free, s0, [Begin(0, a)], Begin(1, b));
    assert [] + [Begin(0, a)] == [Begin(0, a)] && [Begin(0, a)] + [Begin(1, b)] == [Begin(0, a), Begin(1, b)];
  }

  /** A lock that the other of two sessions does not hold is granted. */
  lemma FirstLock(env: L.Env, keys: set<Key>, free: set<set<Key>>, s: Sessions, c: nat)
    requires |s| == 2 && c < 2 && Waiting(env, s[c]) && !Holds(env, s[1 - c], NextLock(env, s[c]))
    ensures Step(env, keys, free, s, Acquire(c)) == s[c := s[c].(held := s[c].held + 1)]
  {
    NotBlocked(env, s, c);
    Granted(env, keys, free, s, c);
  }

  lemma NotBlocked(env: L.Env, s: Sessions, c: nat)
    requires |s| == 2 && c < 2 && Waiting(env, s[c]) && !Holds(env, s[1 - c], NextLock(env, s[c]))
    ensures !Blocked(env, s, c)
  {
    forall u | 0 <= u < |s| ensures !Blocks(env, s, u, c) {
      assert u == c || u == 1 - c;
    }
  }

  lemma Granted(env: L.Env, keys: set<Key>, free: set<set<Key>>, s: Sessions, c: nat)
    requires c < |s| && Waiting(env, s[c]) && !Blocked(env, s, c)
    ensures Step(env, keys, free, s, Acquire(c)) == s[c := s[c].(held := s[c].held + 1)]
  {
  }

  ghost predicate NeverDeadlocks(env: L.Env, keys: set<Key>, free: set<set<Key>>) {
    forall s, schedule, group :: Start(s) ==> !Deadlocked(env, Run(env, keys, free, s, schedule), group)
  }

  /** Two deletes of the same two keys that meet the rows in opposite order. */
  lemma WideCallsDeadlock(env: L.Env, keys: set<Key>, free: set<set<Key>>, ks: set<Key>, a: Key, b: Key)
    requires ks in free && a in ks && b in ks && a != b
    ensures !NeverDeadlocks(env, keys, free)
  {
    assert Members([a, b]) <= ks && Members([b, a]) <= ks;
    assert Wants(env, Free([a, b])) == [Row(a), Row(b)] && Wants(env, Free([b, a])) == [Row(b), Row(a)];
    CrossedCallsDeadlock(env, keys, free, Free([a, b]), Free([b, a]), Row(a), Row(b));
  }

  /** Two conflict-resolving writes and a hash collision around a third key. */
  lemma CollisionDeadlocks(env: L.Env, keys: set<Key>, free: set<set<Key>>, a: Key, b: Key, c: Key)
    requires a in keys && b in keys && c in keys && env.order(a) < env.order(b) < env.order(c)
    requires env.hash(a) == env.hash(c) && env.hash(b) != env.hash(a)
    ensures !NeverDeadlocks(env, keys, free)
  {
    var x, y := Advisory(env.hash(a)), Advisory(env.hash(b));
    assert Members([a, b]) == {a, b} && Members([b, c]) == {b, c};
    assert L.IsPlan(env, [a, b], Members([a, b])) && L.IsPlan(env, [b, c], Members([b, c]));
    assert Wants(env, Taking([a, b], [])) == [x, y] && Wants(env, Taking([b, c], [])) == [y, x];
    CrossedCallsDeadlock(env, keys, free, Taking([a, b], []), Taking([b, c], []), x, y);
  }

  /** Advisory and row locks together, for any conflict-resolving calls on `keys` and any lock-free calls on the
      sets `free`: no run deadlocks if and only if the hash follows the order of the keys and no lock-free
      transaction has more than one key. */
  lemma NeverDeadlocksExactlyWhen(env: L.Env, keys: set<Key>, free: set<set<Key>>)
    requires L.TotalOrder(env, keys)
    ensures NeverDeadlocks(env, keys, free) <==> L.Convex(env, keys) && Narrow(free)
  {
    if !L.Convex(env, keys) {
      var a, b, c :| a in keys && b in keys && c in keys && env.order(a) < env.order(b) < env.order(c)
                     && env.hash(a) == env.hash(c) && env.hash(b) != env.hash(a);
      CollisionDeadlocks(env, keys, free, a, b, c);
    } else if !Narrow(free) {
      var ks :| ks in free && |ks| > 1;
      var a :| a in ks;
      assert ks != {a};
      var b :| b in ks && b != a;
      WideCallsDeadlock(env, keys, free, ks, a, b);
    } else {
      forall s, schedule, group | Start(s) ensures !Deadlocked(env, Run(env, keys, free, s, schedule), group) {
        RunKeepsInv(env, keys, free, s, schedule);
        NoCycle(env, keys, free, Run(env, keys, free, s, schedule), group);
      }
    }
  }

  /** Then, as long as a transaction is open, some open one has all its locks or gets the next. */
  lemma SomeoneIsNotBlocked(env: L.Env, keys: set<Key>, free: set<set<Key>>, s: Sessions, i: nat) returns (c: nat)
    requires L.TotalOrder(env, keys) && L.Convex(env, keys) && Narrow(free) && Inv(env, keys, free, s)
    requires i < |s| && s[i].Open?
    ensures c < |s| && s[c].Open? && !Blocked(env, s, c)
  {
    assert i in OpenOnes(s);
    NoCycle(env, keys, free, s, OpenOnes(s));
    c := UnblockedMember(env, s, OpenOnes(s));
    BlockersAreOpen(env, s, c);
  }

  lemma UnblockedMember(env: L.Env, s: Sessions, group: set<nat>) returns (c: nat)
    requires group != {} && !Deadlocked(env, s, group)
    ensures c in group && !BlockedWithin(env, s, group, c)
  {
    c :| c in group && !BlockedWithin(env, s, group, c);
  }

  function OpenOnes(s: Sessions): set<nat> {
    set j: nat | j < |s| && s[j].Open?
  }

  lemma BlockersAreOpen(env: L.Env, s: Sessions, w: nat)
    ensures Blocked(env, s, w) ==> BlockedWithin(env, s, OpenOnes(s), w)
  {
    if u :| 0 <= u < |s| && Blocks(env, s, u, w) {
      assert u in OpenOnes(s);
    }
  }

  ghost predicate OnlyCalls(schedule: seq<Action>, calls: set<Call>) {
    forall a :: a in schedule && a.Begin? ==> a.call in calls
  }

  /** A merge of {b, a} and a delete of both, with any hash: the merge has its advisory locks and row b, the
      delete row a. */
  lemma MergeAndDeleteDeadlock(env: L.Env, a: Key, b: Key)
    requires env.order(a) < env.order(b)
    ensures exists schedule: seq<Action> ::
              && OnlyCalls(schedule, {Taking([a, b], [b, a]), Free([a, b])})
              && Deadlocked(env, Run(env, {a, b}, {{a, b}}, [Idle, Idle], schedule), {0, 1})
  {
    var merge, delete := Taking([a, b], [b, a]), Free([a, b]);
    assert Members([a, b]) == {a, b} && Members([b, a]) == {a, b} && {a, b} in {{a, b}};
    assert L.IsPlan(env, [a, b], Members([a, b]));
    assert Wants(env, merge) == [Advisory(env.hash(a)), Advisory(env.hash(b)), Row(b), Row(a)];
    assert Wants(env, delete) == [Row(a), Row(b)];
    ThreeLocksAndOne(env, {a, b}, {{a, b}}, merge, delete, Row(b), Row(a));
    assert OnlyCalls(ThreeAndOne(merge, delete), {merge, delete});
  }

  function ThreeAndOne(first: Call, second: Call): seq<Action> {
    [Begin(0, first), Begin(1, second)] + [Acquire(0)] + [Acquire(0)] + [Acquire(0)] + [Acquire(1)]
  }

  /** The first call takes three locks and wants y, the second takes y and wants the third. */
  lemma ThreeLocksAndOne(env: L.Env, keys: set<Key>, free: set<set<Key>>, first: Call, second: Call, x: Lock, y: Lock)
    requires InPlay(env, keys, free, first) && InPlay(env, keys, free, second)
    requires |Wants(env, first)| == 4 && Wants(env, first)[2] == x && Wants(env, first)[3] == y
    requires forall i :: 0 <= i < 3 ==> Wants(env, first)[i] != y
    requires Wants(env, second) == [y, x]
    ensures Deadlocked(env, Run(env, keys, free, [Idle, Idle], ThreeAndOne(first, second)), {0, 1})
  {
    TakeThree(env, keys, free, first, second);
    FirstLock(env, keys, free, [Open(first, 3), Open(second, 0)], 1);
    RunStep(env, keys, free, [Idle, Idle], ThreeAndOne(first, second)[..5], Acquire(1));
    assert ThreeAndOne(first, second)[..5] + [Acquire(1)] == ThreeAndOne(first, second);
    assert ThreeAndOne(first, second)[..5]
        == [Begin(0, first), Begin(1, second)] + [Acquire(0)] + [Acquire(0)] + [Acquire(0)];
    assert Holds(env, Open(first, 3), x) && Holds(env, Open(second, 1), y);
    CrossedStateIsDeadlocked(env, [Open(first, 3), Open(second, 1)], x, y);
  }

  lemma TakeThree(env: L.Env, keys: set<Key>, free: set<set<Key>>, a: Call, b: Call)
    requires InPlay(env, keys, free, a) && InPlay(env, keys, free, b) && |Wants(env, a)| >= 3
    ensures Run(env, keys, free, [Idle, Idle], [Begin(0, a), Begin(1, b)] + [Acquire(0)] + [Acquire(0)] + [Acquire(0)])
         == [Open(a, 3), Open(b, 0)]
  {
    var s0: Sessions, begun := [Idle, Idle], [Begin(0, a), Begin(1, b)];
    BothBegin(env, keys, free, a, b);
    FirstLock(env, keys, free, [Open(a, 0), Open(b, 0)], 0);
    RunStep(env, keys, free, s0, begun, Acquire(0));
    FirstLock(env, keys, free, [Open(a, 1), Open(b, 0)], 0);
    RunStep(env, keys, free, s0, begun + [Acquire(0)], Acquire(0));
    FirstLock(env, keys, free, [Open(a, 2), Open(b, 0)], 0);
    RunStep(env, keys, free, s0, begun + [Acquire(0)] + [Acquire(0)], Acquire(0));
  }

  // ---- everybody finishes ----

  /** The end of a transaction releases its locks and changes no other session. */
  lemma EndReleases(env: L.Env, keys: set<Key>, free: set<set<Key>>, s: Sessions, c: nat, lock: Lock)
    requires c < |s|
    ensures var s' := Step(env, keys, free, s, End(c));
            s' == s[c := Idle] && !Holds(env, s'[c], lock)
  {
  }

  function Work(env: L.Env, w: Session): nat {
    if w.Idle? then 0
    else 1 + if w.held <= |Wants(env, w.call)| then |Wants(env, w.call)| - w.held else 0
  }

  function TotalWork(env: L.Env, s: Sessions): nat {
    Sum(seq(|s|, i requires 0 <= i < |s| => Work(env, s[i])))
  }

  function NextAction(env: L.Env, s: Sessions, c: nat): Action
    requires c < |s|
  {
    if Waiting(env, s[c]) then Acquire(c) else End(c)
  }

  lemma NextActionWorks(env: L.Env, keys: set<Key>, free: set<set<Key>>, s: Sessions, c: nat)
    requires c < |s| && s[c].Open? && !Blocked(env, s, c)
    ensures TotalWork(env, Step(env, keys, free, s, NextAction(env, s, c))) < TotalWork(env, s)
  {
    var w' := if Waiting(env, s[c]) then s[c].(held := s[c].held + 1) else Idle;
    assert Step(env, keys, free, s, NextAction(env, s, c)) == s[c := w'];
    OneLessWork(env, s, c, w');
  }

  lemma OneLessWork(env: L.Env, s: Sessions, c: nat, w: Session)
    requires c < |s| && Work(env, w) < Work(env, s[c])
    ensures TotalWork(env, s[c := w]) < TotalWork(env, s)
  {
    var before := seq(|s|, i requires 0 <= i < |s| => Work(env, s[i]));
    var s' := s[c := w];
    assert seq(|s'|, i requires 0 <= i < |s'| => Work(env, s'[i])) == before[c := Work(env, w)];
    SumFalls(before, c, Work(env, w));
  }

  lemma {:induction false} RunFirst(env: L.Env, keys: set<Key>, free: set<set<Key>>, s: Sessions, a: Action,
                                    rest: seq<Action>)
    ensures Run(env, keys, free, s, [a] + rest) == Run(env, keys, free, Step(env, keys, free, s, a), rest)
  {
    if rest == [] {
      assert [a] + rest == [a] && [a][..0] == [];
      assert Run(env, keys, free, s, []) == s;
    } else {
      var n := |rest| - 1;
      RunFirst(env, keys, free, s, a, rest[..n]);
      assert ([a] + rest)[..n + 1] == [a] + rest[..n];
    }
  }

  /** From every reachable state all open transactions can be brought to their end, one lock or one commit at a
      time and without an abort by a deadlock detector, in as many steps as there are locks to take and
      transactions to end. */
  lemma {:induction false} EverybodyFinishes(env: L.Env, keys: set<Key>, free: set<set<Key>>, s: Sessions)
    returns (schedule: seq<Action>)
    requires L.TotalOrder(env, keys) && L.Convex(env, keys) && Narrow(free) && Inv(env, keys, free, s)
    ensures |schedule| <= TotalWork(env, s) && Start(Run(env, keys, free, s, schedule))
    ensures forall a :: a in schedule ==> !a.Begin?
    decreases TotalWork(env, s)
  {
    if Start(s) {
      schedule := [];
    } else {
      var i: nat :| i < |s| && s[i] != Idle;
      var c := SomeoneIsNotBlocked(env, keys, free, s, i);
      var a := NextAction(env, s, c);
      NextActionWorks(env, keys, free, s, c);
      StepKeepsInv(env, keys, free, s, a);
      var rest := EverybodyFinishes(env, keys, free, Step(env, keys, free, s, a));
      schedule := [a] + rest;
      RunFirst(env, keys, free, s, a, rest);
    }
  }
}
