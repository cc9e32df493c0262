/** The TTL cache over a store: lazy eviction, batched lookups, memoization. */
module TtlCaches {

  type Key = string

  import opened Basics

  /** What the store holds for a key: the value and when it expires, if ever. */
  datatype Entry<V> = Entry(value: V, expiresAt: Option<real>)

  type Entries<V> = map<Key, Entry<V>>

  /** The `ttl` argument: not given, or given as a number of seconds or None. */
  datatype Ttl = Unset | Given(seconds: Option<real>)

  function KeySet(keys: seq<Key>): set<Key> {
    set k | k in keys
  }

  function ResolveTtl(ttl: Ttl, defaultTtl: Option<real>): Option<real> {
    if ttl == Unset then defaultTtl else ttl.seconds
  }

  predicate Negative(ttl: Option<real>) {
    ttl.Some? && ttl.value < 0.0
  }

  predicate Expired<V>(entry: Entry<V>, now: real) {
    entry.expiresAt.Some? && now > entry.expiresAt.value
  }

  /** The answer of a lookup at a clock reading. */
  function Visible<V>(store: Entries<V>, key: Key, now: real): Option<V> {
    if key in store && !Expired(store[key], now) then Some(store[key].value) else None
  }

  function NewEntry<V>(value: V, ttl: Option<real>, now: real): Entry<V> {
    Entry(value, if ttl == None then None else Some(now + ttl.value))
  }

  /** The ttl argument in terms of the clock: given and neither negative nor zero, an entry written at `now` is
      answered until `now + ttl`, for ever when it is None, whatever the default is. A zero ttl leaves nothing.
      An argument that is not given is the default. */
  lemma TtlDecides<V>(store: Entries<V>, items: map<Key, V>, key: Key, ttl: Option<real>, default: Option<real>,
                      now: real, t: real)
    requires key in items
    ensures Negative(ResolveTtl(Given(ttl), default)) <==> ttl.Some? && ttl.value < 0.0
    ensures ttl == None || ttl.value > 0.0 ==>
              Visible(Write(store, items, ResolveTtl(Given(ttl), default), now), key, t)
              == if ttl == None || t <= now + ttl.value then Some(items[key]) else None
    ensures ttl == Some(0.0) ==> key !in Write(store, items, ResolveTtl(Given(ttl), default), now)
    ensures ResolveTtl(Unset, ttl) == ResolveTtl(Given(ttl), default)
  {
  }

  // ---- operations as functions of the store ----

  function Evict<V>(store: Entries<V>, keys: set<Key>, now: real): Entries<V> {
    store - set k | k in keys && k in store && Expired(store[k], now)
  }

  /** A write with a resolved, non-negative ttl; zero removes the entries instead. */
  function Write<V>(store: Entries<V>, items: map<Key, V>, ttl: Option<real>, now: real): Entries<V> {
    if ttl == Some(0.0) then store - items.Keys
    else store + map k | k in items :: NewEntry(items[k], ttl, now)
  }

  /** An operation, with the reading of the clock it makes if it makes one. */
  datatype Event<V> =
    | Lookup(keys: set<Key>, now: real)
    | SetMany(items: map<Key, V>, ttl: Option<real>, now: real)
    | DeleteMany(keys: set<Key>)
    | Clear

  function Step<V>(store: Entries<V>, e: Event<V>): Entries<V> {
    match e
    case Lookup(keys, now) => Evict(store, keys, now)
    case SetMany(items, ttl, now) => if Negative(ttl) then store else Write(store, items, ttl, now)
    case DeleteMany(keys) => store - keys
    case Clear => map[]
  }

  function Run<V>(events: seq<Event<V>>): Entries<V> {
    if events == [] then map[] else Step(Run(events[..|events| - 1]), events[|events| - 1])
  }

  lemma RunStep<V>(events: seq<Event<V>>, e: Event<V>)
    ensures Run(events + [e]) == Step(Run(events), e)
  {
    assert (events + [e])[..|events|] == events;
  }

  // ---- the reference: what the history alone says ----

  /** The operation decides what is stored under the key. */
  predicate Affects<V>(e: Event<V>, key: Key) {
    match e
    case Lookup(_, _) => false
    case SetMany(items, ttl, _) => key in items && !Negative(ttl)
    case DeleteMany(keys) => key in keys
    case Clear => true
  }

  /** The position of the last operation that decided about the key, -1 when there is none. */
  function LastWriteAt<V>(events: seq<Event<V>>, key: Key): (at: int)
    ensures -1 <= at < |events|
    ensures at >= 0 ==> Affects(events[at], key)
    ensures forall j :: at < j < |events| ==> !Affects(events[j], key)
  {
    if events == [] then -1
    else if Affects(events[|events| - 1], key) then |events| - 1
    else LastWriteAt(events[..|events| - 1], key)
  }

  /** The entry that operation stored, if it stored one: a nonzero ttl is needed. */
  function StoredBy<V>(e: Event<V>, key: Key): Option<Entry<V>> {
    if e.SetMany? && key in e.items && !Negative(e.ttl) && e.ttl != Some(0.0)
    then Some(NewEntry(e.items[key], e.ttl, e.now)) else None
  }

  function LastStored<V>(events: seq<Event<V>>, key: Key): Option<Entry<V>> {
    var at := LastWriteAt(events, key);
    if at < 0 then None else StoredBy(events[at], key)
  }

  /** A lookup hits with v iff the last such operation stored v with nonzero ttl that is not over. */
  function Expected<V>(events: seq<Event<V>>, key: Key, now: real): Option<V> {
    match LastStored(events, key)
    case None => None
    case Some(entry) => if Expired(entry, now) then None else Some(entry.value)
  }

  /** A lookup of the key since that operation read the clock past the expiry. */
  predicate Evicted<V>(events: seq<Event<V>>, key: Key) {
    var stored := LastStored(events, key);
    stored.Some? && exists j :: LastWriteAt(events, key) < j < |events| && Evicts(events[j], key, stored.value)
  }

  predicate Evicts<V>(e: Event<V>, key: Key, entry: Entry<V>) {
    e.Lookup? && key in e.keys && Expired(entry, e.now)
  }

  function At<V>(store: Entries<V>, key: Key): Option<Entry<V>> {
    if key in store then Some(store[key]) else None
  }

  lemma EvictedStep<V>(events: seq<Event<V>>, e: Event<V>, key: Key)
    requires !Affects(e, key)
    ensures LastStored(events + [e], key) == LastStored(events, key)
    ensures Evicted(events + [e], key) <==>
              Evicted(events, key) || (LastStored(events, key).Some? && Evicts(e, key, LastStored(events, key).value))
  {
    var longer := events + [e];
    assert longer[..|events|] == events;
    assert LastWriteAt(longer, key) == LastWriteAt(events, key);
    var stored := LastStored(events, key);
    assert longer[|events|] == e;
    if stored.Some? {
      if j :| LastWriteAt(events, key) < j < |events| && Evicts(events[j], key, stored.value) {
        assert Evicts(longer[j], key, stored.value);
      }
      if j :| LastWriteAt(longer, key) < j < |longer| && Evicts(longer[j], key, stored.value) {
        assert j < |events| ==> Evicts(events[j], key, stored.value);
      }
    }
  }

  /** What the store holds after any run, whatever the clock did. */
  lemma {:induction false} ContentsOfRun<V>(events: seq<Event<V>>, key: Key)
    ensures At(Run(events), key) == if Evicted(events, key) then None else LastStored(events, key)
  {
    if events != [] {
      var shorter, last := events[..|events| - 1], events[|events| - 1];
      assert events == shorter + [last];
      ContentsOfRun(shorter, key);
      if !Affects(last, key) {
        EvictedStep(shorter, last, key);
      } else {
        assert LastWriteAt(events, key) == |events| - 1;
      }
    }
  }

  /** The entry was evicted, although it is not expired at this reading of the clock. */
  predicate EvictedEarly<V>(events: seq<Event<V>>, key: Key, now: real) {
    Evicted(events, key) && !Expired(LastStored(events, key).value, now)
  }

  /** For every run and every clock: a lookup answers from the history of writes alone exactly when no lookup
      of the key after its last write read the clock past an expiry that `now` is not past. */
  lemma EvictionShowsExactlyWhenEarly<V>(events: seq<Event<V>>, key: Key, now: real)
    ensures Visible(Run(events), key, now) == Expected(events, key, now) <==> !EvictedEarly(events, key, now)
  {
    ContentsOfRun(events, key);
  }

  /** No lookup so far read the clock later than this. */
  ghost predicate NotBefore<V>(events: seq<Event<V>>, now: real) {
    forall i :: 0 <= i < |events| && events[i].Lookup? ==> events[i].now <= now
  }

  /** Hence eviction is unobservable as long as the clock is not set back behind an earlier lookup. */
  lemma LookupsFollowHistory<V>(events: seq<Event<V>>, key: Key, now: real)
    requires NotBefore(events, now)
    ensures Visible(Run(events), key, now) == Expected(events, key, now)
  {
    EvictionShowsExactlyWhenEarly(events, key, now);
  }

  /** If it is, the eviction shows. */
  lemma ClockSetBackShowsEviction<V>(key: Key, v: V, start: real, ttl: real)
    requires ttl > 0.0
    ensures var events := [SetMany(map[key := v], Some(ttl), start), Lookup({key}, start + ttl + 1.0)];
            Visible(Run(events), key, start) == None && Expected(events, key, start) == Some(v)
  {
    var events := [SetMany(map[key := v], Some(ttl), start), Lookup({key}, start + ttl + 1.0)];
    assert events[..1] == [events[0]];
    assert LastWriteAt(events, key) == 0;
    assert Evicts(events[1], key, LastStored(events, key).value);
    ContentsOfRun(events, key);
  }

  // ---- the cache object ----

  datatype Outcome = Done | ValueError

  class Cache<V> {
    const defaultTtl: Option<real>
    var store: Entries<V>
    ghost var history: seq<Event<V>>

    /** The store is what the operations so far leave. */
    ghost predicate Valid()
      reads this
    {
      store == Run(history) && !Negative(defaultTtl)
    }

    constructor (defaultTtl: Option<real>)
      requires !Negative(defaultTtl)
      ensures Valid() && this.defaultTtl == defaultTtl && history == []
    {
      this.defaultTtl := defaultTtl;
      store, history := map[], [];
    }

    ghost method Record(e: Event<V>, before: seq<Event<V>>)
      requires store == Step(Run(before), e) && !Negative(defaultTtl)
      modifies this`history
      ensures Valid() && history == before + [e]
    {
      RunStep(before, e);
      history := before + [e];
    }

    /** A hit, or a miss that evicts the entry if it was expired. Unless the entry was evicted early the
        answer is the one the history of writes gives. */
    method TryGet(key: Key, now: real) returns (r: Option<V>)
      requires Valid()
      modifies this
      ensures Valid() && history == old(history) + [Lookup({key}, now)]
      ensures r == Visible(old(store), key, now) && store == Evict(old(store), {key}, now)
      ensures r == Expected(old(history), key, now) <==> !EvictedEarly(old(history), key, now)
    {
      EvictionShowsExactlyWhenEarly(history, key, now);
      r := Fetch(key, now);
      Record(Lookup({key}, now), history);
    }

    method Fetch(key: Key, now: real) returns (r: Option<V>)
      modifies this`store
      ensures r == Visible(old(store), key, now)
      ensures store == Evict(old(store), {key}, now)
    {
      if key !in store {
        assert Evict(store, {key}, now) == store;
        return None;
      }
      var entry := store[key];
      if entry.expiresAt.Some? && now > entry.expiresAt.value {
        assert Evict(store, {key}, now) == store - {key};
        store := store - {key};
        return None;
      }
      assert Evict(store, {key}, now) == store;
      return Some(entry.value);
    }

    method Set(key: Key, value: V, ttl: Ttl, now: real) returns (out: Outcome)
      requires Valid()
      modifies this
      ensures Negative(ResolveTtl(ttl, defaultTtl)) ==>
                out == ValueError && store == old(store) && history == old(history)
      ensures !Negative(ResolveTtl(ttl, defaultTtl)) ==>
                out == Done && store == Write(old(store), map[key := value], ResolveTtl(ttl, defaultTtl), now)
                && history == old(history) + [Event.SetMany(map[key := value], ResolveTtl(ttl, defaultTtl), now)]
      ensures Valid()
    {
      var resolved := ResolveTtl(ttl, defaultTtl);
      if resolved.Some? && resolved.value < 0.0 {
        return ValueError;
      }
      if resolved == Some(0.0) {
        store := store - {key};
      } else {
        store := store[key := NewEntry(value, resolved, now)];
      }
      assert store == Write(old(store), map[key := value], resolved, now);
      Record(Event.SetMany(map[key := value], resolved, now), history);
      return Done;
    }

    /** The batch shares one ttl and one clock reading; nothing is checked when it is empty. */
    method SetMany(items: map<Key, V>, ttl: Ttl, now: real) returns (out: Outcome)
      requires Valid()
      modifies this
      ensures items == map[] ==> out == Done && store == old(store) && history == old(history)
      ensures items != map[] && Negative(ResolveTtl(ttl, defaultTtl)) ==>
                out == ValueError && store == old(store) && history == old(history)
      ensures items != map[] && !Negative(ResolveTtl(ttl, defaultTtl)) ==>
                out == Done && store == Write(old(store), items, ResolveTtl(ttl, defaultTtl), now)
                && history == old(history) + [Event.SetMany(items, ResolveTtl(ttl, defaultTtl), now)]
      ensures Valid()
    {
      var resolved := ResolveTtl(ttl, defaultTtl);
      if items == map[] {
        return Done;
      }
      if resolved.Some? && resolved.value < 0.0 {
        return ValueError;
      }
      if resolved == Some(0.0) {
        store := store - items.Keys;
      } else {
        store := store + map k | k in items :: NewEntry(items[k], resolved, now);
      }
      Record(Event.SetMany(items, resolved, now), history);
      return Done;
    }

    /** The batched lookup: hits only, expired entries evicted afterwards. A key may be repeated. */
    method TryGetMany(keys: seq<Key>, now: real) returns (hits: map<Key, V>)
      requires Valid()
      modifies this
      ensures forall k :: k in hits <==> k in keys && Visible(old(store), k, now).Some?
      ensures forall k :: k in hits ==> Some(hits[k]) == Visible(old(store), k, now)
      ensures store == Evict(old(store), KeySet(keys), now)
      ensures history == if keys == [] then old(history) else old(history) + [Lookup(KeySet(keys), now)]
      ensures Valid()
    {
      if keys == [] {
        assert Evict(store, KeySet(keys), now) == store;
        return map[];
      }
      var expired;
      hits, expired := SplitMany(keys, now);
      ghost var gone := set k | k in KeySet(keys) && k in store && Expired(store[k], now);
      assert gone == set k | k in expired;
      store := store - set k | k in expired;
      Record(Lookup(KeySet(keys), now), history);
    }

    method SplitMany(keys: seq<Key>, now: real) returns (hits: map<Key, V>, expired: seq<Key>)
      ensures hits == map k | k in store && k in keys && !Expired(store[k], now) :: store[k].value
      ensures forall k :: k in expired <==> k in keys && k in store && Expired(store[k], now)
    {
      hits, expired := map[], [];
      for i := 0 to |keys|
        invariant hits == map k | k in store && k in keys[..i] && !Expired(store[k], now) :: store[k].value
        invariant forall k :: k in expired <==> k in keys[..i] && k in store && Expired(store[k], now)
      {
        assert keys[..i + 1] == keys[..i] + [keys[i]];
        var key := keys[i];
        if key !in store {
          continue;
        }
        var entry := store[key];
        if entry.expiresAt.Some? && now > entry.expiresAt.value {
          expired := expired + [key];
          continue;
        }
        hits := hits[key := entry.value];
      }
      assert keys[..|keys|] == keys;
    }

    /** Every requested key is answered, a miss with the default. */
    method GetMany(keys: seq<Key>, default: V, now: real) returns (values: map<Key, V>)
      requires Valid()
      modifies this
      ensures values.Keys == KeySet(keys)
      ensures forall k :: k in values ==>
                values[k] == match Visible(old(store), k, now) { case Some(v) => v case None => default }
      ensures store == Evict(old(store), KeySet(keys), now)
      ensures history == if keys == [] then old(history) else old(history) + [Lookup(KeySet(keys), now)]
      ensures Valid()
    {
      var hits := TryGetMany(keys, now);
      values := map k | k in keys :: if k in hits then hits[k] else default;
    }

    method DeleteMany(keys: seq<Key>)
      requires Valid()
      modifies this
      ensures Valid() && store == old(store) - KeySet(keys)
      ensures history == old(history) + [Event.DeleteMany(KeySet(keys))]
    {
      store := store - KeySet(keys);
      Record(Event.DeleteMany(KeySet(keys)), history);
    }

    method Clear()
      requires Valid()
      modifies this
      ensures Valid() && store == map[] && history == old(history) + [Event.Clear]
    {
      store := map[];
      Record(Event.Clear, history);
    }

    /** Returns the cached value, or computes, stores and returns it. The clock is read for the lookup and
        again for the write. */
    method GetOrCompute(key: Key, fn: () -> V, ttl: Ttl, now: real, later: real)
      returns (value: V, computed: bool, out: Outcome)
      requires Valid()
      modifies this
      ensures Valid()
      ensures history == old(history) + [Lookup({key}, now)]
                         + if computed && out == Done
                           then [Event.SetMany(map[key := value], ResolveTtl(ttl, defaultTtl), later)] else []
      ensures computed <==> Visible(old(store), key, now) == None
      ensures !computed ==> out == Done && Some(value) == Visible(old(store), key, now) && store == old(store)
      ensures computed ==> value == fn()
      ensures computed && Negative(ResolveTtl(ttl, defaultTtl)) ==>
                out == ValueError && store == Evict(old(store), {key}, now)
      ensures computed && !Negative(ResolveTtl(ttl, defaultTtl)) ==>
                out == Done
                && store == Write(Evict(old(store), {key}, now), map[key := fn()], ResolveTtl(ttl, defaultTtl), later)
    {
      var hit := TryGet(key, now);
      if hit.Some? {
        assert Evict(old(store), {key}, now) == old(store);
        return hit.value, false, Done;
      }
      value := fn();
      out := Set(key, value, ttl, later);
      computed := true;
    }

    /** The wrapper of a memoized function: a step of the memoization runs below, with its answer. */
    method Memoized<A>(memo: Memo<A, V>, arg: A, ttl: Ttl, now: real, later: real) returns (answer: Option<V>)
      requires Valid() && memo.ttl == ResolveTtl(ttl, defaultTtl)
      modifies this
      ensures Valid()
      ensures store == CallStep(memo, old(store), Call(arg, now, later))
      ensures answer == Answer(memo, old(store), Call(arg, now, later))
      ensures history == old(history) + [Lookup({memo.key(arg)}, now)]
                         + if Computes(memo, old(store), Call(arg, now, later)) && answer.Some?
                           then [Event.SetMany(map[memo.key(arg) := memo.fn(arg)], memo.ttl, later)] else []
    {
      var value, computed, out := GetOrCompute(memo.key(arg), () => memo.fn(arg), ttl, now, later);
      answer := if out == Done then Some(value) else None;
    }
  }

  // ---- batches against single lookups ----

  function Singles<V>(store: Entries<V>, keys: seq<Key>, now: real): (Entries<V>, seq<Option<V>>) {
    if keys == [] then (store, [])
    else
      var (before, answers) := Singles(store, keys[..|keys| - 1], now);
      var key := keys[|keys| - 1];
      (Evict(before, {key}, now), answers + [Visible(before, key, now)])
  }

  /** One lookup after the other at the same clock reading gives the answers and the store of the batch,
      repeated keys included. */
  lemma {:induction false} BatchEqualsSingles<V>(store: Entries<V>, keys: seq<Key>, now: real)
    ensures var (after, answers) := Singles(store, keys, now);
            && after == Evict(store, KeySet(keys), now)
            && |answers| == |keys| && forall i :: 0 <= i < |keys| ==> answers[i] == Visible(store, keys[i], now)
  {
    if keys == [] {
      assert Evict(store, KeySet(keys), now) == store;
    } else {
      var shorter, key := keys[..|keys| - 1], keys[|keys| - 1];
      BatchEqualsSingles(store, shorter, now);
      assert keys == shorter + [key];
      assert Evict(Evict(store, KeySet(shorter), now), {key}, now) == Evict(store, KeySet(keys), now);
    }
  }

  // ---- memoization ----

  /** Calls of one memoized function, mixed with lookups and removals by others. A call reads the clock
      for its lookup and, after computing, again for its write. */
  datatype Call<A> =
    | Call(arg: A, now: real, later: real)
    | LookUp(keys: set<Key>, now: real)
    | Remove(keys: set<Key>, now: real)
    | RemoveAll(now: real)

  /** The function, the key of an argument, and the resolved ttl the results are stored with. */
  datatype Memo<!A, V> = Memo(fn: A -> V, key: A -> Key, ttl: Option<real>)

  ghost predicate Injective<A(!new), V>(memo: Memo<A, V>) {
    forall a, b :: memo.key(a) == memo.key(b) ==> a == b
  }

  /** The memoized function runs when its key is not visible. */
  predicate Computes<A, V>(memo: Memo<A, V>, store: Entries<V>, call: Call<A>) {
    call.Call? && Visible(store, memo.key(call.arg), call.now) == None
  }

  /** What a call returns; None when it raises because the ttl is negative. */
  function Answer<A, V>(memo: Memo<A, V>, store: Entries<V>, call: Call<A>): Option<V>
    requires call.Call?
  {
    match Visible(store, memo.key(call.arg), call.now)
    case Some(v) => Some(v)
    case None => if Negative(memo.ttl) then None else Some(memo.fn(call.arg))
  }

  function CallStep<A, V>(memo: Memo<A, V>, store: Entries<V>, call: Call<A>): Entries<V> {
    match call
    case Call(arg, now, later) =>
      if !Computes(memo, store, call) then store
      else
        var evicted := Evict(store, {memo.key(arg)}, now);
        if Negative(memo.ttl) then evicted
        else Write(evicted, map[memo.key(arg) := memo.fn(arg)], memo.ttl, later)
    case LookUp(keys, now) => Evict(store, keys, now)
    case Remove(keys, _) => store - keys
    case RemoveAll(_) => map[]
  }

  function CallRun<A, V>(memo: Memo<A, V>, calls: seq<Call<A>>): Entries<V> {
    if calls == [] then map[] else CallStep(memo, CallRun(memo, calls[..|calls| - 1]), calls[|calls| - 1])
  }

  /** The cache operations a call amounts to. */
  function EventsOfCall<A, V>(memo: Memo<A, V>, store: Entries<V>, call: Call<A>): seq<Event<V>> {
    match call
    case Call(arg, now, later) =>
      var lookup := Lookup({memo.key(arg)}, now);
      if Computes(memo, store, call) && !Negative(memo.ttl)
      then [lookup, Event.SetMany(map[memo.key(arg) := memo.fn(arg)], memo.ttl, later)] else [lookup]
    case LookUp(keys, now) => [Lookup(keys, now)]
    case Remove(keys, _) => [Event.DeleteMany(keys)]
    case RemoveAll(_) => [Event.Clear]
  }

  function EventsOf<A, V>(memo: Memo<A, V>, calls: seq<Call<A>>): seq<Event<V>> {
    if calls == [] then []
    else
      var shorter := calls[..|calls| - 1];
      EventsOf(memo, shorter) + EventsOfCall(memo, CallRun(memo, shorter), calls[|calls| - 1])
  }

  lemma CallIsEvents<A, V>(memo: Memo<A, V>, events: seq<Event<V>>, call: Call<A>)
    ensures Run(events + EventsOfCall(memo, Run(events), call)) == CallStep(memo, Run(events), call)
  {
    match call
    case Call(arg, now, later) => FunctionCallIsEvents(memo, events, arg, now, later);
    case LookUp(keys, now) => RunStep(events, Lookup(keys, now));
    case Remove(keys, _) => RunStep(events, Event.DeleteMany(keys));
    case RemoveAll(_) => RunStep(events, Event.Clear);
  }

  lemma FunctionCallIsEvents<A, V>(memo: Memo<A, V>, events: seq<Event<V>>, arg: A, now: real, later: real)
    ensures var call := Call(arg, now, later);
            Run(events + EventsOfCall(memo, Run(events), call)) == CallStep(memo, Run(events), call)
  {
    var key, store := memo.key(arg), Run(events);
    if Computes(memo, store, Call(arg, now, later)) && !Negative(memo.ttl) {
      TwoSteps(events, Lookup({key}, now), Event.SetMany(map[key := memo.fn(arg)], memo.ttl, later));
    } else {
      RunStep(events, Lookup({key}, now));
      if !Computes(memo, store, Call(arg, now, later)) {
        NothingToEvict(store, key, now);
      }
    }
  }

  lemma TwoSteps<V>(events: seq<Event<V>>, first: Event<V>, second: Event<V>)
    ensures Run(events + [first, second]) == Step(Step(Run(events), first), second)
  {
    AppendTwo(events, first, second);
    RunStep(events, first);
    RunStep(events + [first], second);
  }

  lemma AppendTwo<T>(s: seq<T>, a: T, b: T)
    ensures s + [a, b] == (s + [a]) + [b]
  {
  }

  lemma NothingToEvict<V>(store: Entries<V>, key: Key, now: real)
    requires Visible(store, key, now).Some?
    ensures Evict(store, {key}, now) == store
  {
  }

  /** Memoization runs are cache runs: what holds for histories of the cache holds for them. */
  lemma {:induction false} CallRunIsRun<A, V>(memo: Memo<A, V>, calls: seq<Call<A>>)
    ensures CallRun(memo, calls) == Run(EventsOf(memo, calls))
  {
    if calls != [] {
      var shorter := calls[..|calls| - 1];
      CallRunIsRun(memo, shorter);
      CallIsEvents(memo, EventsOf(memo, shorter), calls[|calls| - 1]);
    }
  }

  /** Everything stored under the key of an argument is the function's value for it. */
  lemma {:induction false} OnlyResultsAreStored<A(!new), V>(memo: Memo<A, V>, calls: seq<Call<A>>, a: A)
    requires Injective(memo)
    ensures var store := CallRun(memo, calls);
            && (memo.key(a) in store ==> store[memo.key(a)].value == memo.fn(a))
            && (Negative(memo.ttl) ==> store == map[])
  {
    if calls != [] {
      OnlyResultsAreStored(memo, calls[..|calls| - 1], a);
    }
  }

  /** Memoization is transparent: in every run every call returns the function's value, and with a negative
      ttl every call raises. */
  lemma MemoizedCallsAreCorrect<A(!new), V>(memo: Memo<A, V>, calls: seq<Call<A>>, i: nat)
    requires Injective(memo) && i < |calls| && calls[i].Call?
    ensures Answer(memo, CallRun(memo, calls[..i]), calls[i])
         == if Negative(memo.ttl) then None else Some(memo.fn(calls[i].arg))
  {
    OnlyResultsAreStored(memo, calls[..i], calls[i].arg);
  }

  /** The call removes the key of the argument on purpose. */
  predicate Removes<A, V>(memo: Memo<A, V>, call: Call<A>, a: A) {
    call.RemoveAll? || (call.Remove? && memo.key(a) in call.keys)
  }

  ghost predicate CallsMonotone<A>(calls: seq<Call<A>>) {
    && (forall i :: 0 <= i < |calls| && calls[i].Call? ==> calls[i].now <= calls[i].later)
    && (forall i, j :: 0 <= i < j < |calls| ==>
          (if calls[i].Call? then calls[i].later else calls[i].now) <= calls[j].now)
  }

  /** After the function ran for `a` at position i, its entry stays until it is removed or expires. */
  lemma {:induction false} EntryStays<A(!new), V>(memo: Memo<A, V>, calls: seq<Call<A>>, i: nat, n: nat)
    requires Injective(memo) && CallsMonotone(calls) && i < n <= |calls|
    requires Computes(memo, CallRun(memo, calls[..i]), calls[i]) && memo.ttl != Some(0.0) && !Negative(memo.ttl)
    requires forall m :: i < m < n ==> !Removes(memo, calls[m], calls[i].arg)
    requires forall m :: i < m < n ==> memo.ttl == None || calls[m].now <= calls[i].later + memo.ttl.value
    ensures var (store, key) := (CallRun(memo, calls[..n]), memo.key(calls[i].arg));
            key in store && store[key].expiresAt == NewEntry(memo.fn(calls[i].arg), memo.ttl, calls[i].later).expiresAt
    decreases n
  {
    assert calls[..n][..n - 1] == calls[..n - 1];
    if n > i + 1 {
      EntryStays(memo, calls, i, n - 1);
    }
  }

  /** The function runs at most once per argument: between two runs the entry was removed or expired. */
  lemma SecondRunNeedsReason<A(!new), V>(memo: Memo<A, V>, calls: seq<Call<A>>, i: nat, j: nat)
    requires Injective(memo) && CallsMonotone(calls) && i < j < |calls| && memo.ttl != Some(0.0) && !Negative(memo.ttl)
    requires Computes(memo, CallRun(memo, calls[..i]), calls[i]) && Computes(memo, CallRun(memo, calls[..j]), calls[j])
    requires calls[i].arg == calls[j].arg
    ensures (exists m :: i < m < j && Removes(memo, calls[m], calls[i].arg))
            || (memo.ttl.Some? && calls[j].now > calls[i].later + memo.ttl.value)
  {
    if !(exists m :: i < m < j && Removes(memo, calls[m], calls[i].arg))
       && (memo.ttl == None || calls[j].now <= calls[i].later + memo.ttl.value) {
      forall m | i < m < j ensures calls[m].now <= calls[j].now {
        assert (if calls[m].Call? then calls[m].later else calls[m].now) <= calls[j].now;
      }
      EntryStays(memo, calls, i, j);
    }
  }
}
