/** In-memory and LMDB writes and the streaming set_batches, against the one abstract store. */
module Backends {
  import opened Basics
  import opened Stores
  import opened Batching

  /** The result of normalizing an `on_conflict` string; None when it is not a strategy. */
  type OnConflict = Option<Strategy>

  /** The in-memory store checks `on_conflict` even when there is nothing to write. */
  function InMemorySetMany(s: Store, closed: bool, items: Store, onConflict: OnConflict): (Store, Outcome) {
    if closed then (s, NotOpen)
    else if onConflict == None then (s, ValueError)
    else SetMany(s, items, onConflict.value)
  }

  /** LMDB (like SQLite, Redis and Postgres) returns before checking it. */
  function LmdbSetMany(s: Store, closed: bool, items: Store, onConflict: OnConflict): (Store, Outcome) {
    if closed then (s, NotOpen)
    else if items == map[] then (s, Written)
    else if onConflict == None then (s, ValueError)
    else SetMany(s, items, onConflict.value)
  }

  /** Interchangeable for every state and every input, except for an invalid strategy and no items. */
  lemma BackendsAgree(s: Store, closed: bool, items: Store, onConflict: OnConflict)
    ensures InMemorySetMany(s, closed, items, onConflict) == LmdbSetMany(s, closed, items, onConflict)
            <==> closed || items != map[] || onConflict != None
  {
    if items == map[] && onConflict != None {
      assert items.Keys * s.Keys == {};
      assert SetMany(s, items, onConflict.value).0 == s;
    }
  }

  class InMemoryStore {
    var data: Store
    var closed: bool

    constructor ()
      ensures closed && data == map[]
    {
      data, closed := map[], true;
    }

    method Open()
      modifies this
      ensures !closed && data == if old(closed) then map[] else old(data)
    {
      if closed {
        data, closed := map[], false;
      }
    }

    method Close()
      modifies this
      ensures closed && data == map[]
    {
      data, closed := map[], true;
    }

    method SetMany(items: Store, onConflict: OnConflict) returns (out: Outcome)
      modifies this`data
      ensures (data, out) == InMemorySetMany(old(data), closed, items, onConflict)
    {
      if closed {
        return NotOpen;
      }
      if onConflict == None {
        return ValueError;
      }
      if onConflict.value == Overwrite {
        OverwriteEffect(data, items);
        Put(items);
        return Written;
      }
      var resolution := ResolveAgainst(data, items, onConflict.value);
      if resolution.Conflicting? {
        return KeyError(resolution.conflicts);
      }
      Put(resolution.toWrite);
      return Written;
    }

    method Put(items: Store)
      modifies this`data
      ensures data == old(data) + items
    {
      var pending := items.Keys;
      assert items - pending == map[] && data + map[] == data;
      while pending != {}
        invariant pending <= items.Keys
        invariant data == old(data) + (items - pending)
        decreases pending
      {
        var key :| key in pending;
        PendingLess(items, pending, key);
        SumUpdate(old(data), items - pending, key, items[key]);
        pending := pending - {key};
        data := data[key := items[key]];
      }
      assert items - pending == items;
    }

    /** Streams pairs in batches; each batch is collapsed into a dict before it is written. The batch size is
        checked at once, the rest by the first write, if there is one. */
    method SetBatches(items: seq<(Key, Value)>, batchSize: int, onConflict: OnConflict) returns (out: Outcome)
      modifies this`data
      ensures batchSize < 1 ==> out == ValueError && data == old(data)
      ensures batchSize >= 1 && items == [] ==> out == Written && data == old(data)
      ensures batchSize >= 1 && items != [] && closed ==> out == NotOpen && data == old(data)
      ensures batchSize >= 1 && items != [] && !closed && onConflict == None ==> out == ValueError && data == old(data)
      ensures batchSize >= 1 && !closed && onConflict.Some? ==>
                (data, out) == WriteBatches(old(data), Chunks(items, batchSize), onConflict.value)
    {
      if batchSize < 1 {
        return ValueError;
      }
      var batches := Chunks(items, batchSize);
      out := Written;
      for b := 0 to |batches|
        invariant out == Written
        invariant !closed && onConflict.Some? ==> (data, out) == WriteBatches(old(data), batches[..b], onConflict.value)
        invariant closed || onConflict == None ==> b == 0 && data == old(data)
      {
        if !closed && onConflict.Some? {
          OneMoreBatch(old(data), batches, b, onConflict.value);
        }
        out := SetMany(DictOf(batches[b]), onConflict);
        if out != Written {
          if !closed && onConflict.Some? {
            WriteBatchesStops(old(data), batches, b + 1, onConflict.value);
          }
          return;
        }
      }
      assert batches[..|batches|] == batches;
    }
  }

  class LmdbStore {
    var data: Store
    var closed: bool

    constructor ()
      ensures closed && data == map[]
    {
      data, closed := map[], true;
    }

    /** One write transaction: the conflicts are computed once, then entries are read and written in the
        same pass. A KeyError aborts the transaction. */
    method SetMany(items: Store, onConflict: OnConflict) returns (out: Outcome)
      modifies this`data
      ensures (data, out) == LmdbSetMany(old(data), closed, items, onConflict)
    {
      if closed {
        return NotOpen;
      }
      if items == map[] {
        return Written;
      }
      if onConflict == None {
        return ValueError;
      }
      if onConflict.value == Overwrite {
        OverwriteEffect(data, items);
        data := data + items;
        return Written;
      }
      var strategy := onConflict.value;
      var conflicts := set key | key in items && key in data;
      assert conflicts == items.Keys * data.Keys;
      if conflicts != {} && strategy == Raise {
        return KeyError(conflicts);
      }
      var txn := FusedPass(data, items, conflicts, strategy);
      data := txn;
      return Written;
    }

    /** Reads and writes of one transaction that started on `start`. */
    method FusedPass(start: Store, items: Store, conflicts: set<Key>, strategy: Strategy) returns (txn: Store)
      requires conflicts == items.Keys * start.Keys && strategy != Overwrite && (strategy == Raise ==> conflicts == {})
      ensures (txn, Written) == Stores.SetMany(start, items, strategy)
    {
      txn := start;
      ghost var effect := Effect(start, items, strategy);
      var pending := items.Keys;
      assert effect - pending == map[] && start + map[] == start;
      while pending != {}
        invariant pending <= items.Keys
        invariant txn == start + (effect - pending)
        decreases pending
      {
        var key :| key in pending;
        PendingLess(effect, pending, key);
        SumUpdate(start, effect - pending, key, EntryAfter(start, key, items[key], strategy));
        pending := pending - {key};
        var toWrite := items[key];
        if key in conflicts {
          if strategy == Skip {
            continue;
          }
          toWrite := txn[key] + items[key];
        }
        txn := txn[key := toWrite];
      }
      assert effect - pending == effect;
    }
  }

  // ---- set_batches against one write per pair ----

  /** `dict(batch)`: the last value of a repeated key wins. */
  function DictOf(batch: seq<(Key, Value)>): Store {
    if batch == [] then map[]
    else DictOf(batch[..|batch| - 1])[batch[|batch| - 1].0 := batch[|batch| - 1].1]
  }

  function WriteBatches(s: Store, batches: seq<seq<(Key, Value)>>, strategy: Strategy): (Store, Outcome) {
    if batches == [] then (s, Written)
    else
      var before := WriteBatches(s, batches[..|batches| - 1], strategy);
      if before.1 != Written then before
      else SetMany(before.0, DictOf(batches[|batches| - 1]), strategy)
  }

  /** One `set` per pair, in order, up to the first error. */
  function SetEach(s: Store, items: seq<(Key, Value)>, strategy: Strategy): (Store, Outcome) {
    if items == [] then (s, Written)
    else
      var before := SetEach(s, items[..|items| - 1], strategy);
      if before.1 != Written then before
      else Set(before.0, items[|items| - 1].0, items[|items| - 1].1, strategy)
  }

  lemma OneMoreBatch(s: Store, batches: seq<seq<(Key, Value)>>, b: nat, strategy: Strategy)
    requires b < |batches| && WriteBatches(s, batches[..b], strategy).1 == Written
    ensures WriteBatches(s, batches[..b + 1], strategy)
         == SetMany(WriteBatches(s, batches[..b], strategy).0, DictOf(batches[b]), strategy)
  {
    assert batches[..b + 1][..b] == batches[..b];
  }

  lemma {:induction false} WriteBatchesStops(s: Store, batches: seq<seq<(Key, Value)>>, b: nat, strategy: Strategy)
    requires b <= |batches| && WriteBatches(s, batches[..b], strategy).1 != Written
    ensures WriteBatches(s, batches, strategy) == WriteBatches(s, batches[..b], strategy)
    decreases |batches|
  {
    if b < |batches| {
      var shorter := batches[..|batches| - 1];
      assert shorter[..b] == batches[..b];
      WriteBatchesStops(s, shorter, b, strategy);
    } else {
      assert batches[..b] == batches;
    }
  }

  function At(s: Store, key: Key): Option<Value> {
    if key in s then Some(s[key]) else None
  }

  lemma SameStores(a: Store, b: Store)
    ensures a == b <==> forall k :: At(a, k) == At(b, k)
  {
    if forall k :: At(a, k) == At(b, k) {
      forall k ensures k in a <==> k in b {
        assert At(a, k) == At(b, k);
      }
      forall k | k in a ensures a[k] == b[k] {
        assert At(a, k) == At(b, k);
      }
    }
  }

  /** Writing two dicts in turn is writing this one: "overwrite" keeps the later value, "skip" the earlier
      one, "merge" lays the later over the earlier. */
  function Joined(before: Store, items: Store, strategy: Strategy): Store {
    match strategy
    case Skip => items + before
    case Merge => before + map k | k in items :: if k in before then before[k] + items[k] else items[k]
    case _ => before + items
  }

  /** A write as a single map. */
  function After(s: Store, items: Store, strategy: Strategy): Store {
    s + Effect(s, items, strategy)
  }

  lemma AfterAt(s: Store, items: Store, strategy: Strategy, k: Key)
    requires strategy != Raise
    ensures At(After(s, items, strategy), k) == EntryNext(At(s, k), At(items, k), strategy)
  {
  }

  lemma JoinedAt(before: Store, items: Store, strategy: Strategy, k: Key)
    requires strategy != Raise
    ensures At(Joined(before, items, strategy), k) == EntryNext(At(before, k), At(items, k), strategy)
  {
  }

  /** The entry a write with items[k] makes of the entry at k. */
  function EntryNext(entry: Option<Value>, item: Option<Value>, strategy: Strategy): Option<Value> {
    if item == None then entry
    else if entry == None || strategy == Overwrite || strategy == Raise then item
    else if strategy == Skip then entry
    else Some(entry.value + item.value)
  }

  lemma EntriesJoin(a: Option<Value>, b: Option<Value>, c: Option<Value>, strategy: Strategy)
    ensures EntryNext(EntryNext(a, b, strategy), c, strategy) == EntryNext(a, EntryNext(b, c, strategy), strategy)
  {
    if strategy == Merge && a.Some? && b.Some? && c.Some? {
      assert (a.value + b.value) + c.value == a.value + (b.value + c.value);
    }
  }

  lemma JoinedWriteAt(s: Store, before: Store, items: Store, strategy: Strategy, k: Key)
    requires strategy != Raise
    ensures At(After(s, Joined(before, items, strategy), strategy), k)
         == At(After(After(s, before, strategy), items, strategy), k)
  {
    JoinedAt(before, items, strategy, k);
    AfterAt(s, before, strategy, k);
    AfterAt(s, Joined(before, items, strategy), strategy, k);
    AfterAt(After(s, before, strategy), items, strategy, k);
    EntriesJoin(At(s, k), At(before, k), At(items, k), strategy);
  }

  lemma JoinedWrite(s: Store, before: Store, items: Store, strategy: Strategy)
    requires strategy != Raise
    ensures After(s, Joined(before, items, strategy), strategy) == After(After(s, before, strategy), items, strategy)
  {
    var once, twice := After(s, Joined(before, items, strategy), strategy),
                       After(After(s, before, strategy), items, strategy);
    forall k ensures At(once, k) == At(twice, k) {
      JoinedWriteAt(s, before, items, strategy, k);
    }
    SameStores(once, twice);
  }

  /** The single write that has the effect of the pairs one by one: for repeated keys, "overwrite" keeps
      the last value, "skip" the first, "merge" overlays them. */
  function Condensed(items: seq<(Key, Value)>, strategy: Strategy): Store {
    if items == [] then map[]
    else
      var before := Condensed(items[..|items| - 1], strategy);
      Joined(before, map[items[|items| - 1].0 := items[|items| - 1].1], strategy)
  }

  lemma {:induction false} SetEachIsCondensed(s: Store, items: seq<(Key, Value)>, strategy: Strategy)
    requires strategy != Raise
    ensures SetEach(s, items, strategy) == SetMany(s, Condensed(items, strategy), strategy)
  {
    if items == [] {
      assert SetMany(s, map[], strategy).0 == s;
    } else {
      var shorter := items[..|items| - 1];
      var (key, value) := items[|items| - 1];
      SetEachIsCondensed(s, shorter, strategy);
      JoinedWrite(s, Condensed(shorter, strategy), map[key := value], strategy);
    }
  }

  lemma {:induction false} OverwriteKeepsLast(items: seq<(Key, Value)>)
    ensures Condensed(items, Overwrite) == Condensed(items, Raise) == DictOf(items)
  {
    if items != [] {
      OverwriteKeepsLast(items[..|items| - 1]);
    }
  }

  /** The single write that has the effect of the batches' dicts. */
  function Streamed(batches: seq<seq<(Key, Value)>>, strategy: Strategy): Store {
    if batches == [] then map[]
    else Joined(Streamed(batches[..|batches| - 1], strategy), DictOf(batches[|batches| - 1]), strategy)
  }

  lemma {:induction false} BatchesAreStreamed(s: Store, batches: seq<seq<(Key, Value)>>, strategy: Strategy)
    requires strategy != Raise
    ensures WriteBatches(s, batches, strategy) == SetMany(s, Streamed(batches, strategy), strategy)
    ensures WriteBatches(s, batches, strategy).1 == Written
  {
    if batches == [] {
      assert Effect(s, map[], strategy) == map[];
      assert s + map[] == s;
    } else {
      var shorter, last := batches[..|batches| - 1], batches[|batches| - 1];
      BatchesAreStreamed(s, shorter, strategy);
      JoinedWrite(s, Streamed(shorter, strategy), DictOf(last), strategy);
    }
  }

  /** Two writes are the same on every store exactly when they write the same entries. */
  lemma SameOnEveryStore(a: Store, b: Store, strategy: Strategy)
    requires strategy != Raise
    ensures (forall s :: SetMany(s, a, strategy) == SetMany(s, b, strategy)) <==> a == b
  {
    OnEmpty(a, strategy);
    OnEmpty(b, strategy);
    var empty: Store := map[];
    assert (forall s :: SetMany(s, a, strategy) == SetMany(s, b, strategy)) ==>
        SetMany(empty, a, strategy) == SetMany(empty, b, strategy);
  }

  ghost predicate StreamsExactly(batches: seq<seq<(Key, Value)>>, strategy: Strategy) {
    forall s :: WriteBatches(s, batches, strategy) == SetEach(s, Flatten(batches), strategy)
  }

  lemma StreamsExactlyWhenCondensed(batches: seq<seq<(Key, Value)>>, strategy: Strategy)
    requires strategy != Raise
    ensures StreamsExactly(batches, strategy) <==> Streamed(batches, strategy) == Condensed(Flatten(batches), strategy)
  {
    forall s: Store
      ensures WriteBatches(s, batches, strategy) == SetMany(s, Streamed(batches, strategy), strategy)
      ensures SetEach(s, Flatten(batches), strategy) == SetMany(s, Condensed(Flatten(batches), strategy), strategy)
    {
      BatchesAreStreamed(s, batches, strategy);
      SetEachIsCondensed(s, Flatten(batches), strategy);
    }
    SameOnEveryStore(Streamed(batches, strategy), Condensed(Flatten(batches), strategy), strategy);
  }

  // ---- the condition in terms of the pairs ----

  /** The value of the first pair with the key. */
  function FirstValue(items: seq<(Key, Value)>, key: Key): Option<Value> {
    if items == [] then None
    else
      var before := FirstValue(items[..|items| - 1], key);
      if before.Some? then before
      else if items[|items| - 1].0 == key then Some(items[|items| - 1].1) else None
  }

  /** The value of the last pair with the key. */
  function LastValue(items: seq<(Key, Value)>, key: Key): Option<Value> {
    if items == [] then None
    else if items[|items| - 1].0 == key then Some(items[|items| - 1].1)
    else LastValue(items[..|items| - 1], key)
  }

  /** What the last pair that has the field for the key gives it. */
  function LastField(items: seq<(Key, Value)>, key: Key, f: Field): Option<Json> {
    if items == [] then None
    else
      var (k, value) := items[|items| - 1];
      if k == key && f in value then Some(value[f]) else LastField(items[..|items| - 1], key, f)
  }

  /** The last value of the key in the first batch that has it. */
  function LastOfFirstBatch(batches: seq<seq<(Key, Value)>>, key: Key): Option<Value> {
    if batches == [] then None
    else
      var before := LastOfFirstBatch(batches[..|batches| - 1], key);
      if before.Some? then before else LastValue(batches[|batches| - 1], key)
  }

  /** What the last batch gives the field in its last value of the key, if that value has the field. */
  function LastFieldOfLasts(batches: seq<seq<(Key, Value)>>, key: Key, f: Field): Option<Json> {
    if batches == [] then None
    else
      var value := LastValue(batches[|batches| - 1], key);
      if value.Some? && f in value.value then Some(value.value[f])
      else LastFieldOfLasts(batches[..|batches| - 1], key, f)
  }

  function FieldAt(s: Store, key: Key, f: Field): Option<Json> {
    if key in s && f in s[key] then Some(s[key][f]) else None
  }

  lemma {:induction false} DictAt(items: seq<(Key, Value)>, key: Key)
    ensures At(DictOf(items), key) == LastValue(items, key)
  {
    if items != [] {
      DictAt(items[..|items| - 1], key);
    }
  }

  lemma {:induction false} CondensedSkipAt(items: seq<(Key, Value)>, key: Key)
    ensures At(Condensed(items, Skip), key) == FirstValue(items, key)
  {
    if items != [] {
      CondensedSkipAt(items[..|items| - 1], key);
    }
  }

  lemma {:induction false} CondensedMergeAt(items: seq<(Key, Value)>, key: Key, f: Field)
    ensures FieldAt(Condensed(items, Merge), key, f) == LastField(items, key, f)
    ensures key in Condensed(items, Merge) <==> LastValue(items, key).Some?
  {
    if items != [] {
      CondensedMergeAt(items[..|items| - 1], key, f);
    }
  }

  lemma {:induction false} StreamedSkipAt(batches: seq<seq<(Key, Value)>>, key: Key)
    ensures At(Streamed(batches, Skip), key) == LastOfFirstBatch(batches, key)
  {
    if batches != [] {
      StreamedSkipAt(batches[..|batches| - 1], key);
      DictAt(batches[|batches| - 1], key);
    }
  }

  lemma {:induction false} StreamedMergeAt(batches: seq<seq<(Key, Value)>>, key: Key, f: Field)
    ensures FieldAt(Streamed(batches, Merge), key, f) == LastFieldOfLasts(batches, key, f)
    ensures key in Streamed(batches, Merge) <==> LastValue(Flatten(batches), key).Some?
  {
    if batches != [] {
      var shorter, last := batches[..|batches| - 1], batches[|batches| - 1];
      StreamedMergeAt(shorter, key, f);
      DictAt(last, key);
      FlattenAppend(shorter, last);
      assert shorter + [last] == batches;
      LastValueSplits(Flatten(shorter), last, key);
    }
  }

  lemma {:induction false} LastValueSplits(a: seq<(Key, Value)>, b: seq<(Key, Value)>, key: Key)
    ensures LastValue(a + b, key) == if LastValue(b, key).Some? then LastValue(b, key) else LastValue(a, key)
  {
    if b == [] {
      assert a + b == a;
    } else {
      LastValueSplits(a, b[..|b| - 1], key);
      assert (a + b)[..|a + b| - 1] == a + b[..|b| - 1];
    }
  }

  lemma SameFields(a: Store, b: Store)
    ensures a == b <==> a.Keys == b.Keys && forall k, f :: FieldAt(a, k, f) == FieldAt(b, k, f)
  {
    if a.Keys == b.Keys && forall k, f :: FieldAt(a, k, f) == FieldAt(b, k, f) {
      forall k | k in a ensures a[k] == b[k] {
        forall f ensures f in a[k] <==> f in b[k] {
          assert FieldAt(a, k, f) == FieldAt(b, k, f);
        }
        forall f | f in a[k] ensures a[k][f] == b[k][f] {
          assert FieldAt(a, k, f) == FieldAt(b, k, f);
        }
      }
    }
  }

  /** Every key's first value is the last one of the first batch that has it. */
  ghost predicate FirstsSurvive(batches: seq<seq<(Key, Value)>>) {
    forall key :: LastOfFirstBatch(batches, key) == FirstValue(Flatten(batches), key)
  }

  /** The last values of the batches give every field what the last pair with the field gives it. */
  ghost predicate FieldsSurvive(batches: seq<seq<(Key, Value)>>) {
    forall key, f :: LastFieldOfLasts(batches, key, f) == LastField(Flatten(batches), key, f)
  }

  ghost predicate FirstsAreLasts(batch: seq<(Key, Value)>) {
    forall key :: FirstValue(batch, key) == LastValue(batch, key)
  }

  /** "skip": streaming is one set per pair on every store exactly when every key's first value is the last
      one of the first batch that has it. */
  lemma SkipStreamsExactlyWhen(batches: seq<seq<(Key, Value)>>)
    ensures StreamsExactly(batches, Skip)
            <==> FirstsSurvive(batches)
  {
    var streamed, condensed := Streamed(batches, Skip), Condensed(Flatten(batches), Skip);
    StreamsExactlyWhenCondensed(batches, Skip);
    if streamed == condensed {
      forall key ensures LastOfFirstBatch(batches, key) == FirstValue(Flatten(batches), key) {
        StreamedSkipAt(batches, key);
        CondensedSkipAt(Flatten(batches), key);
      }
    }
    if FirstsSurvive(batches) {
      forall key ensures At(streamed, key) == At(condensed, key) {
        StreamedSkipAt(batches, key);
        CondensedSkipAt(Flatten(batches), key);
        assert LastOfFirstBatch(batches, key) == FirstValue(Flatten(batches), key);
      }
      SameStores(streamed, condensed);
    }
  }

  /** "merge": exactly when no field takes its final value from a pair that a later pair of the same batch
      and key hides, that is, when the batches' last values give every field what the last pair with the
      field gives it. */
  lemma MergeStreamsExactlyWhen(batches: seq<seq<(Key, Value)>>)
    ensures StreamsExactly(batches, Merge)
            <==> FieldsSurvive(batches)
  {
    var streamed, condensed := Streamed(batches, Merge), Condensed(Flatten(batches), Merge);
    StreamsExactlyWhenCondensed(batches, Merge);
    if streamed == condensed {
      forall key, f ensures LastFieldOfLasts(batches, key, f) == LastField(Flatten(batches), key, f) {
        StreamedMergeAt(batches, key, f);
        CondensedMergeAt(Flatten(batches), key, f);
      }
    }
    if FieldsSurvive(batches) {
      forall key ensures key in streamed <==> key in condensed {
        StreamedMergeAt(batches, key, "");
        CondensedMergeAt(Flatten(batches), key, "");
      }
      forall key, f ensures FieldAt(streamed, key, f) == FieldAt(condensed, key, f) {
        StreamedMergeAt(batches, key, f);
        CondensedMergeAt(Flatten(batches), key, f);
        assert LastFieldOfLasts(batches, key, f) == LastField(Flatten(batches), key, f);
      }
      SameFields(streamed, condensed);
    }
  }

  /** One batch, "skip": its dict can be written instead exactly when the first value of every key is its last. */
  lemma SkipBatchIsExact(batch: seq<(Key, Value)>)
    ensures (forall s :: SetMany(s, DictOf(batch), Skip) == SetEach(s, batch, Skip))
            <==> FirstsAreLasts(batch)
  {
    var dict, condensed := DictOf(batch), Condensed(batch, Skip);
    BatchIsExact(batch, Skip);
    if dict == condensed {
      forall key ensures FirstValue(batch, key) == LastValue(batch, key) {
        DictAt(batch, key);
        CondensedSkipAt(batch, key);
      }
    }
    if FirstsAreLasts(batch) {
      forall key ensures At(dict, key) == At(condensed, key) {
        DictAt(batch, key);
        CondensedSkipAt(batch, key);
        assert FirstValue(batch, key) == LastValue(batch, key);
      }
      SameStores(dict, condensed);
    }
  }

  /** One batch, "merge": exactly when the last value of every key has all fields of the earlier ones. */
  lemma MergeBatchIsExact(batch: seq<(Key, Value)>)
    ensures (forall s :: SetMany(s, DictOf(batch), Merge) == SetEach(s, batch, Merge))
            <==> forall i :: 0 <= i < |batch| ==> batch[i].1.Keys <= FinalFields(batch, batch[i].0)
  {
    BatchIsExact(batch, Merge);
    MergeFields(batch);
  }

  function FinalFields(batch: seq<(Key, Value)>, key: Key): set<Field> {
    var value := LastValue(batch, key);
    if value.Some? then value.value.Keys else {}
  }

  lemma {:induction false} LastFieldHasPair(batch: seq<(Key, Value)>, key: Key, f: Field)
    requires LastField(batch, key, f).Some?
    ensures exists i :: 0 <= i < |batch| && batch[i].0 == key && f in batch[i].1
  {
    if !(batch[|batch| - 1].0 == key && f in batch[|batch| - 1].1) {
      LastFieldHasPair(batch[..|batch| - 1], key, f);
      var i :| 0 <= i < |batch| - 1 && batch[..|batch| - 1][i].0 == key && f in batch[..|batch| - 1][i].1;
      assert batch[i].0 == key && f in batch[i].1;
    }
  }

  lemma {:induction false} PairHasLastField(batch: seq<(Key, Value)>, i: nat, f: Field)
    requires i < |batch| && f in batch[i].1
    ensures LastField(batch, batch[i].0, f).Some?
  {
    if i < |batch| - 1 {
      PairHasLastField(batch[..|batch| - 1], i, f);
    }
  }

  lemma {:induction false} LastValueGivesField(batch: seq<(Key, Value)>, key: Key, f: Field)
    requires f in FinalFields(batch, key)
    ensures LastField(batch, key, f) == Some(LastValue(batch, key).value[f])
  {
    if batch[|batch| - 1].0 != key {
      LastValueGivesField(batch[..|batch| - 1], key, f);
    }
  }

  lemma MergeFields(batch: seq<(Key, Value)>)
    ensures Condensed(batch, Merge) == DictOf(batch)
            <==> forall i :: 0 <= i < |batch| ==> batch[i].1.Keys <= FinalFields(batch, batch[i].0)
  {
    var condensed, dict := Condensed(batch, Merge), DictOf(batch);
    forall key ensures key in condensed <==> key in dict {
      CondensedMergeAt(batch, key, "");
      DictAt(batch, key);
    }
    SameFields(condensed, dict);
    if condensed == dict {
      forall i, f | 0 <= i < |batch| && f in batch[i].1 ensures f in FinalFields(batch, batch[i].0) {
        PairHasLastField(batch, i, f);
        CondensedMergeAt(batch, batch[i].0, f);
        DictAt(batch, batch[i].0);
      }
    }
    if forall i :: 0 <= i < |batch| ==> batch[i].1.Keys <= FinalFields(batch, batch[i].0) {
      forall key, f ensures FieldAt(condensed, key, f) == FieldAt(dict, key, f) {
        FieldIsFinal(batch, key, f);
      }
    }
  }

  lemma FieldIsFinal(batch: seq<(Key, Value)>, key: Key, f: Field)
    requires forall i :: 0 <= i < |batch| ==> batch[i].1.Keys <= FinalFields(batch, batch[i].0)
    ensures FieldAt(Condensed(batch, Merge), key, f) == FieldAt(DictOf(batch), key, f)
  {
    CondensedMergeAt(batch, key, f);
    DictAt(batch, key);
    if LastField(batch, key, f).Some? {
      LastFieldHasPair(batch, key, f);
      LastValueGivesField(batch, key, f);
    } else if f in FinalFields(batch, key) {
      LastValueGivesField(batch, key, f);
    }
  }

  /** The batches whose dict has the effect of their pairs one by one, on every store. */
  lemma BatchIsExact(batch: seq<(Key, Value)>, strategy: Strategy)
    requires strategy != Raise
    ensures (forall s :: SetMany(s, DictOf(batch), strategy) == SetEach(s, batch, strategy))
            <==> Condensed(batch, strategy) == DictOf(batch)
  {
    forall s: Store
      ensures SetEach(s, batch, strategy) == SetMany(s, Condensed(batch, strategy), strategy)
    {
      SetEachIsCondensed(s, batch, strategy);
    }
    SameOnEveryStore(DictOf(batch), Condensed(batch, strategy), strategy);
  }

  lemma OnEmpty(items: Store, strategy: Strategy)
    ensures SetMany(map[], items, strategy).0 == items
  {
    var empty: Store := map[];
    assert items.Keys * empty.Keys == {};
  }

  ghost predicate DistinctKeys(items: seq<(Key, Value)>) {
    forall a, b :: 0 <= a < b < |items| ==> items[a].0 != items[b].0
  }

  lemma {:induction false} DictKeys(items: seq<(Key, Value)>)
    ensures forall k :: k in DictOf(items) <==> exists a :: 0 <= a < |items| && items[a].0 == k
  {
    if items != [] {
      var shorter := items[..|items| - 1];
      DictKeys(shorter);
      forall k ensures k in DictOf(items) <==> exists a :: 0 <= a < |items| && items[a].0 == k {
        if k in DictOf(items) && k != items[|items| - 1].0 {
          assert k in DictOf(shorter);
          var a :| 0 <= a < |shorter| && shorter[a].0 == k;
          assert items[a].0 == k;
        }
        if a :| 0 <= a < |items| && items[a].0 == k {
          assert a < |shorter| ==> shorter[a].0 == k;
        }
      }
    }
  }

  lemma {:induction false} DistinctIsCondensed(items: seq<(Key, Value)>, strategy: Strategy)
    requires DistinctKeys(items)
    ensures Condensed(items, strategy) == DictOf(items)
  {
    if items != [] {
      var shorter := items[..|items| - 1];
      DistinctIsCondensed(shorter, strategy);
      DictKeys(shorter);
      JoinedApart(DictOf(shorter), items[|items| - 1].0, items[|items| - 1].1, strategy);
    }
  }

  lemma JoinedApart(before: Store, key: Key, value: Value, strategy: Strategy)
    requires key !in before
    ensures Joined(before, map[key := value], strategy) == before[key := value]
  {
  }

  lemma {:induction false} SetEachSplits(s: Store, a: seq<(Key, Value)>, b: seq<(Key, Value)>, strategy: Strategy)
    requires SetEach(s, a, strategy).1 == Written
    ensures SetEach(s, a + b, strategy) == SetEach(SetEach(s, a, strategy).0, b, strategy)
  {
    if b == [] {
      assert a + b == a;
    } else {
      SetEachSplits(s, a, b[..|b| - 1], strategy);
      assert (a + b)[..|a + b| - 1] == a + b[..|b| - 1];
    }
  }

  /** Streaming is the same as one `set` per pair whenever every batch condenses to its dict; the batch
      size then cannot be observed. */
  lemma {:induction false} BatchesAreSets(s: Store, batches: seq<seq<(Key, Value)>>, strategy: Strategy)
    requires strategy != Raise
    requires forall b :: 0 <= b < |batches| ==> Condensed(batches[b], strategy) == DictOf(batches[b])
    ensures WriteBatches(s, batches, strategy) == SetEach(s, Flatten(batches), strategy)
    ensures WriteBatches(s, batches, strategy).1 == Written
    decreases |batches|
  {
    if batches != [] {
      var shorter, last := batches[..|batches| - 1], batches[|batches| - 1];
      BatchesAreSets(s, shorter, strategy);
      FlattenAppend(shorter, last);
      assert shorter + [last] == batches;
      SetEachSplits(s, Flatten(shorter), last, strategy);
      SetEachIsCondensed(SetEach(s, Flatten(shorter), strategy).0, last, strategy);
    }
  }

  /** "overwrite": every batch size gives the store of one `set` per pair, repeated keys included. */
  lemma OverwriteAnyBatchSize(s: Store, items: seq<(Key, Value)>, size: nat)
    requires size > 0
    ensures WriteBatches(s, Chunks(items, size), Overwrite) == SetEach(s, items, Overwrite)
  {
    ChunksAreWellCut(items, size);
    forall b | 0 <= b < |Chunks(items, size)|
      ensures Condensed(Chunks(items, size)[b], Overwrite) == DictOf(Chunks(items, size)[b])
    {
      OverwriteKeepsLast(Chunks(items, size)[b]);
    }
    BatchesAreSets(s, Chunks(items, size), Overwrite);
  }

  lemma {:induction false} ChunksStayDistinct(items: seq<(Key, Value)>, size: nat)
    requires size > 0 && DistinctKeys(items)
    ensures forall b :: 0 <= b < |Chunks(items, size)| ==> DistinctKeys(Chunks(items, size)[b])
    decreases |items|
  {
    if |items| > size {
      ChunksStayDistinct(items[size..], size);
    }
  }

  /** "skip" and "merge": the same, for pairwise distinct keys. */
  lemma DistinctAnyBatchSize(s: Store, items: seq<(Key, Value)>, size: nat, strategy: Strategy)
    requires size > 0 && DistinctKeys(items) && strategy != Raise
    ensures WriteBatches(s, Chunks(items, size), strategy) == SetEach(s, items, strategy)
  {
    ChunksAreWellCut(items, size);
    ChunksStayDistinct(items, size);
    forall b | 0 <= b < |Chunks(items, size)|
      ensures Condensed(Chunks(items, size)[b], strategy) == DictOf(Chunks(items, size)[b])
    {
      DistinctIsCondensed(Chunks(items, size)[b], strategy);
    }
    BatchesAreSets(s, Chunks(items, size), strategy);
  }

  /** With a repeated key the batch size shows: one batch of two drops the first merge, two batches keep it. */
  lemma MergeSeesBatchSize()
    ensures var items := [("a", map["x" := Num(1.0)]), ("a", map["y" := Num(2.0)])];
            && WriteBatches(map[], Chunks(items, 2), Merge).0 == map["a" := map["y" := Num(2.0)]]
            && WriteBatches(map[], Chunks(items, 1), Merge).0 == map["a" := map["x" := Num(1.0), "y" := Num(2.0)]]
  {
    var p: (Key, Value), q: (Key, Value) := ("a", map["x" := Num(1.0)]), ("a", map["y" := Num(2.0)]);
    TwoPairs(p, q);
    MergedAtOnce(p, q);
    MergedInTurn(p, q);
    TwoFields("x", Num(1.0), "y", Num(2.0));
  }

  lemma TwoFields(f: Field, v: Json, g: Field, w: Json)
    requires f != g
    ensures map[f := v] + map[g := w] == map[f := v, g := w]
  {
  }

  lemma MergedAtOnce(p: (Key, Value), q: (Key, Value))
    requires p.0 == q.0
    ensures WriteBatches(map[], [[p, q]], Merge).0 == map[q.0 := q.1]
  {
    var empty: Store := map[];
    assert [[p, q]][..0] == [];
    TwoPairs(p, q);
    OnEmpty(DictOf([p, q]), Merge);
  }

  lemma MergedInTurn(p: (Key, Value), q: (Key, Value))
    requires p.0 == q.0
    ensures WriteBatches(map[], [[p], [q]], Merge).0 == map[q.0 := p.1 + q.1]
  {
    var empty: Store := map[];
    TwoPairs(p, q);
    OnEmpty(DictOf([p]), Merge);
    assert [[p], [q]][..1] == [[p]] && [[p]][..0] == [];
    assert WriteBatches(empty, [[p]], Merge) == SetMany(empty, DictOf([p]), Merge);
    SetAt(DictOf([p]), q.0, q.1, Merge);
  }

  lemma TwoPairs(p: (Key, Value), q: (Key, Value))
    ensures Chunks([p, q], 2) == [[p, q]] && Chunks([p, q], 1) == [[p], [q]]
    ensures DictOf([p]) == map[p.0 := p.1] && DictOf([q]) == map[q.0 := q.1]
    ensures DictOf([p, q]) == map[p.0 := p.1][q.0 := q.1]
  {
    assert [p, q][1..] == [q] && [p, q][..1] == [p] && [p][..0] == [];
    assert DictOf([p]) == map[p.0 := p.1];
  }

  lemma {:induction false} SetEachRaise(s: Store, items: seq<(Key, Value)>)
    requires DistinctKeys(items) && forall k :: k in DictOf(items) ==> k !in s
    ensures SetEach(s, items, Raise) == (s + DictOf(items), Written)
  {
    if items == [] {
      assert s + DictOf(items) == s;
    } else {
      var shorter := items[..|items| - 1];
      DictKeys(shorter);
      SetEachRaise(s, shorter);
      var (key, value) := items[|items| - 1];
      SetAt(s + DictOf(shorter), key, value, Raise);
      SumUpdate(s, DictOf(shorter), key, value);
    }
  }

  /** "raise": the store holds exactly the whole batches before the failing one, and the error names the
      keys of the failing batch that were already there. */
  lemma {:induction false} RaiseKeepsWholeBatches(s: Store, batches: seq<seq<(Key, Value)>>)
    requires forall b :: 0 <= b < |batches| ==> DistinctKeys(batches[b])
    ensures var r := WriteBatches(s, batches, Raise);
            || (r.1 == Written && SetEach(s, Flatten(batches), Raise) == r)
            || exists b :: 0 <= b < |batches| && FailsAt(s, batches, b, r)
    decreases |batches|
  {
    if batches != [] {
      var n := |batches| - 1;
      var before := WriteBatches(s, batches[..n], Raise);
      RaiseKeepsWholeBatches(s, batches[..n]);
      if before.1 != Written {
        var b :| 0 <= b < n && FailsAt(s, batches[..n], b, before);
        FailsLonger(s, batches, b, before);
      } else if DictOf(batches[n]).Keys * before.0.Keys != {} {
        assert FailsAt(s, batches, n, SetMany(before.0, DictOf(batches[n]), Raise));
      } else {
        FlattenAppend(batches[..n], batches[n]);
        assert batches[..n] + [batches[n]] == batches;
        RaiseOneBatch(s, before.0, Flatten(batches[..n]), batches[n]);
      }
    }
  }

  lemma FailsLonger(s: Store, batches: seq<seq<(Key, Value)>>, b: nat, r: (Store, Outcome))
    requires b < |batches| - 1 && FailsAt(s, batches[..|batches| - 1], b, r)
    ensures FailsAt(s, batches, b, r)
  {
    assert batches[..|batches| - 1][..b] == batches[..b];
  }

  lemma RaiseOneBatch(s: Store, middle: Store, done: seq<(Key, Value)>, batch: seq<(Key, Value)>)
    requires SetEach(s, done, Raise) == (middle, Written)
    requires DistinctKeys(batch) && DictOf(batch).Keys * middle.Keys == {}
    ensures SetMany(middle, DictOf(batch), Raise) == SetEach(s, done + batch, Raise)
    ensures SetMany(middle, DictOf(batch), Raise).1 == Written
  {
    assert forall k :: k in DictOf(batch) ==> k !in middle by {
      assert forall k :: k in DictOf(batch) && k in middle ==> k in DictOf(batch).Keys * middle.Keys;
    }
    SetEachSplits(s, done, batch, Raise);
    SetEachRaise(middle, batch);
    RaiseWithoutConflict(middle, DictOf(batch));
  }

  ghost predicate FailsAt(s: Store, batches: seq<seq<(Key, Value)>>, b: nat, r: (Store, Outcome))
    requires b < |batches|
  {
    && SetEach(s, Flatten(batches[..b]), Raise) == (r.0, Written)
    && r.1 == KeyError(DictOf(batches[b]).Keys * r.0.Keys)
    && DictOf(batches[b]).Keys * r.0.Keys != {}
  }

  lemma {:induction false} DictOfJoin(a: seq<(Key, Value)>, b: seq<(Key, Value)>)
    ensures DictOf(a + b) == DictOf(a) + DictOf(b)
  {
    if b == [] {
      assert a + b == a;
    } else {
      assert (a + b)[..|a + b| - 1] == a + b[..|b| - 1];
      DictOfJoin(a, b[..|b| - 1]);
    }
  }

  /** A "raise" run that stopped at batch b: what was written before, and the keys the error names. */
  ghost predicate StopsAt(s: Store, batches: seq<seq<(Key, Value)>>, b: nat, r: (Store, Outcome))
    requires b < |batches|
  {
    && r.0 == s + DictOf(Flatten(batches[..b]))
    && r.1 == KeyError(DictOf(batches[b]).Keys * r.0.Keys)
    && DictOf(batches[b]).Keys * r.0.Keys != {}
  }

  /** The same without any condition on the keys: either everything was written, or exactly the pairs of
      the batches before the first one with a conflict. */
  lemma {:induction false} RaiseStopsBetweenBatches(s: Store, batches: seq<seq<(Key, Value)>>)
    ensures var r := WriteBatches(s, batches, Raise);
            || r == (s + DictOf(Flatten(batches)), Written)
            || exists b :: 0 <= b < |batches| && StopsAt(s, batches, b, r)
    decreases |batches|
  {
    if batches == [] {
      assert s + DictOf(Flatten(batches)) == s;
    } else {
      var n := |batches| - 1;
      var shorter := batches[..n];
      RaiseStopsBetweenBatches(s, shorter);
      var before := WriteBatches(s, shorter, Raise);
      if before.1 != Written {
        var b :| 0 <= b < |shorter| && StopsAt(s, shorter, b, before);
        assert shorter[..b] == batches[..b];
        assert StopsAt(s, batches, b, before);
      } else {
        OneRaiseBatch(s, batches, before.0);
      }
    }
  }

  lemma OneRaiseBatch(s: Store, batches: seq<seq<(Key, Value)>>, middle: Store)
    requires batches != [] && middle == s + DictOf(Flatten(batches[..|batches| - 1]))
    ensures var (n, r) := (|batches| - 1, SetMany(middle, DictOf(batches[|batches| - 1]), Raise));
            r == (s + DictOf(Flatten(batches)), Written) || StopsAt(s, batches, n, r)
  {
    var n := |batches| - 1;
    var before := Flatten(batches[..n]);
    RaiseOneMore(s, DictOf(before), DictOf(batches[n]));
    assert batches[..n] + [batches[n]] == batches;
    FlattenAppend(batches[..n], batches[n]);
    DictOfJoin(before, batches[n]);
  }

  lemma RaiseOneMore(s: Store, done: Store, items: Store)
    ensures var middle := s + done;
            SetMany(middle, items, Raise) == (if items.Keys * middle.Keys == {} then (s + (done + items), Written)
                                              else (middle, KeyError(items.Keys * middle.Keys)))
  {
    var middle := s + done;
    if items.Keys * middle.Keys == {} {
      RaiseWithoutConflict(middle, items);
      SumOfThree(s, done, items);
    }
  }

  lemma RaiseWithoutConflict(s: Store, items: Store)
    requires items.Keys * s.Keys == {}
    ensures SetMany(s, items, Raise) == (s + items, Written)
  {
    assert forall k :: k in items && k in s ==> k in items.Keys * s.Keys;
    assert Effect(s, items, Raise) == items;
  }

  lemma SumOfThree(a: Store, b: Store, c: Store)
    ensures (a + b) + c == a + (b + c)
  {
  }

  function BatchKeys(batch: seq<(Key, Value)>): set<Key> {
    set p | p in batch :: p.0
  }

  lemma DictHasBatchKeys(batch: seq<(Key, Value)>)
    ensures DictOf(batch).Keys == BatchKeys(batch)
  {
    DictKeys(batch);
  }

  lemma {:induction false} FlattenKeys(batches: seq<seq<(Key, Value)>>, k: Key)
    ensures k in DictOf(Flatten(batches)) <==> exists b :: 0 <= b < |batches| && k in BatchKeys(batches[b])
    decreases |batches|
  {
    if batches != [] {
      var shorter, last := batches[..|batches| - 1], batches[|batches| - 1];
      FlattenKeys(shorter, k);
      FlattenAppend(shorter, last);
      assert shorter + [last] == batches;
      DictOfJoin(Flatten(shorter), last);
      DictHasBatchKeys(last);
      if b :| 0 <= b < |batches| && k in BatchKeys(batches[b]) {
        assert b < |shorter| ==> k in BatchKeys(shorter[b]);
      }
      if b :| 0 <= b < |shorter| && k in BatchKeys(shorter[b]) {
        assert k in BatchKeys(batches[b]);
      }
    }
  }

  /** No batch has a key of the store and no two batches share one. A key may be repeated inside a batch. */
  ghost predicate BatchesApart(s: Store, batches: seq<seq<(Key, Value)>>) {
    && (forall b :: 0 <= b < |batches| ==> BatchKeys(batches[b]) !! s.Keys)
    && (forall a, b :: 0 <= a < b < |batches| ==> BatchKeys(batches[a]) !! BatchKeys(batches[b]))
  }

  /** One batch more must be apart from the store and from the batches before. */
  lemma BatchesApartStep(s: Store, batches: seq<seq<(Key, Value)>>)
    requires batches != []
    ensures var (shorter, last) := (batches[..|batches| - 1], batches[|batches| - 1]);
            BatchesApart(s, batches)
            <==> BatchesApart(s, shorter) && DictOf(last).Keys * (s + DictOf(Flatten(shorter))).Keys == {}
  {
    var shorter, last := batches[..|batches| - 1], batches[|batches| - 1];
    var written := (s + DictOf(Flatten(shorter))).Keys;
    DictHasBatchKeys(last);
    assert forall b :: 0 <= b < |shorter| ==> shorter[b] == batches[b];
    if BatchesApart(s, batches) {
      forall k | k in BatchKeys(last) ensures k !in written {
        FlattenKeys(shorter, k);
      }
    }
    if DictOf(last).Keys * written == {} {
      forall k | k in BatchKeys(last) ensures k !in s && k !in DictOf(Flatten(shorter)) {
        assert k in written ==> k in DictOf(last).Keys * written;
      }
      forall b, k | 0 <= b < |shorter| && k in BatchKeys(shorter[b]) ensures k !in BatchKeys(last) {
        FlattenKeys(shorter, k);
      }
    }
  }

  /** When a "raise" call succeeds: exactly then. So the batch size shows here too: a key repeated inside a
      batch is accepted silently, the same key in two batches is an error even on an empty store. */
  lemma {:induction false} RaiseSucceedsExactlyWhen(s: Store, batches: seq<seq<(Key, Value)>>)
    ensures WriteBatches(s, batches, Raise).1 == Written <==> BatchesApart(s, batches)
    decreases |batches|
  {
    if batches != [] {
      var shorter := batches[..|batches| - 1];
      RaiseSucceedsExactlyWhen(s, shorter);
      BatchesApartStep(s, batches);
      RaiseStopsBetweenBatches(s, shorter);
    }
  }
}
