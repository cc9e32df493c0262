/** The abstract key-value store every backend must refine, and the shared conflict resolution. */
module Stores {

  type Key = string
  type Field = string

  /** A field value. `Nested` stands for a list or dict, known by its JSON text. */
  datatype Json = Null | Bool(b: bool) | Num(n: real) | Str(s: string) | Nested(text: string)

  type Value = map<Field, Json>
  type Store = map<Key, Value>

  datatype Strategy = Raise | Skip | Overwrite | Merge

  /** How a write ends: done, or one of the errors the source raises. `ValueError` is a rejected
      `on_conflict` string or batch size or reserved key, `NotOpen` the RuntimeError of a closed store. */
  datatype Outcome = Written | KeyError(conflicts: set<Key>) | ValueError | NotOpen

  /** The entries a non-overwriting write stores, given the conflicts it saw and the values it read
      for them; a value that had disappeared was read as empty. */
  function ToWrite(items: Store, strategy: Strategy, conflicts: set<Key>, got: map<Key, Value>): Store {
    map k | k in items && !(strategy == Skip && k in conflicts) ::
      if k in conflicts && k in got then got[k] + items[k] else items[k]
  }

  /** The entries a write leaves behind when it meets no error. */
  function Effect(s: Store, items: Store, strategy: Strategy): Store {
    map k | k in items && !(k in s && strategy == Skip) ::
      if k in s && strategy != Overwrite then s[k] + items[k] else items[k]
  }

  /** The sequential meaning of set_many on a store. */
  function SetMany(s: Store, items: Store, strategy: Strategy): (Store, Outcome) {
    var conflicts := items.Keys * s.Keys;
    if strategy == Raise && conflicts != {} then (s, KeyError(conflicts))
    else (s + Effect(s, items, strategy), Written)
  }

  function Set(s: Store, key: Key, value: Value, strategy: Strategy): (Store, Outcome) {
    SetMany(s, map[key := value], strategy)
  }

  lemma OverwriteEffect(s: Store, items: Store)
    ensures Effect(s, items, Overwrite) == items
    ensures SetMany(s, items, Overwrite) == (s + items, Written)
  {
  }

  /** Checked reads make the optimistic computation exact. */
  lemma ToWriteIsEffect(s: Store, items: Store, strategy: Strategy, conflicts: set<Key>, got: map<Key, Value>)
    requires strategy != Overwrite && conflicts == items.Keys * s.Keys
    requires strategy == Raise ==> conflicts == {}
    requires strategy == Merge ==> got.Keys == conflicts && forall k :: k in got ==> got[k] == s[k]
    ensures ToWrite(items, strategy, conflicts, got) == Effect(s, items, strategy)
    ensures SetMany(s, items, strategy) == (s + ToWrite(items, strategy, conflicts, got), Written)
  {
    var toWrite, effect := ToWrite(items, strategy, conflicts, got), Effect(s, items, strategy);
    assert forall k :: k in items ==> (k in conflicts <==> k in s);
    assert toWrite.Keys == effect.Keys;
    forall k | k in toWrite ensures toWrite[k] == effect[k] {
      assert k in conflicts ==> strategy == Merge;
    }
    assert toWrite == effect;
  }

  /** What a single write without error does. */
  function NextStore(s: Store, key: Key, value: Value, strategy: Strategy): Store {
    if key !in s || strategy == Overwrite then s[key := value]
    else if strategy == Skip then s
    else s[key := s[key] + value]
  }

  lemma SetAt(s: Store, key: Key, value: Value, strategy: Strategy)
    requires strategy == Raise ==> key !in s
    ensures Set(s, key, value, strategy) == (NextStore(s, key, value, strategy), Written)
  {
    var item: Store := map[key := value];
    assert key !in s ==> item.Keys * s.Keys == {};
    assert s + Effect(s, item, strategy) == NextStore(s, key, value, strategy);
  }

  /** set_many is the same as writing the entries one at a time, in any order: peeling off any key. */
  lemma SetManyPeels(s: Store, items: Store, strategy: Strategy, key: Key)
    requires key in items && SetMany(s, items, strategy).1 == Written
    ensures var first := Set(s, key, items[key], strategy);
            first.1 == Written && SetMany(first.0, items - {key}, strategy) == SetMany(s, items, strategy)
  {
    assert strategy == Raise ==> key !in items.Keys * s.Keys;
    SetAt(s, key, items[key], strategy);
    var first := Set(s, key, items[key], strategy).0;
    var rest := items - {key};
    if strategy == Raise {
      assert rest.Keys * first.Keys <= items.Keys * s.Keys;
    }
    PeeledEffect(s, items, strategy, key, first);
  }

  /** The value a write leaves at a key it writes. */
  function EntryAfter(s: Store, key: Key, value: Value, strategy: Strategy): Value {
    if key in s && strategy != Overwrite then s[key] + value else value
  }

  lemma EffectWithout(s: Store, items: Store, strategy: Strategy, key: Key)
    requires key !in items || (key in s && strategy == Skip)
    ensures Effect(s, items - {key}, strategy) == Effect(s, items, strategy)
  {
  }

  lemma EffectWith(s: Store, items: Store, strategy: Strategy, key: Key, value: Value)
    requires !(key in s && strategy == Skip)
    ensures Effect(s, items[key := value], strategy)
         == Effect(s, items, strategy)[key := EntryAfter(s, key, value, strategy)]
  {
  }

  lemma EffectElsewhere(s: Store, items: Store, strategy: Strategy, key: Key, v: Value)
    requires key !in items
    ensures Effect(s[key := v], items, strategy) == Effect(s, items, strategy)
  {
  }

  lemma SumUpdate<K, V>(a: map<K, V>, b: map<K, V>, k: K, v: V)
    ensures (a + b)[k := v] == a + b[k := v]
    ensures k !in b ==> (a + b)[k := v] == a[k := v] + b
  {
  }

  lemma PeeledEffect(s: Store, items: Store, strategy: Strategy, key: Key, first: Store)
    requires key in items
    requires first == if key in s && strategy == Skip then s
                      else s[key := EntryAfter(s, key, items[key], strategy)]
    ensures first + Effect(first, items - {key}, strategy) == s + Effect(s, items, strategy)
  {
    var rest := items - {key};
    if key in s && strategy == Skip {
      EffectWithout(s, items, strategy, key);
    } else {
      var v := EntryAfter(s, key, items[key], strategy);
      assert items == rest[key := items[key]];
      EffectWith(s, rest, strategy, key, items[key]);
      EffectElsewhere(s, rest, strategy, key, v);
      SumUpdate(s, Effect(s, rest, strategy), key, v);
    }
  }

  /** One key less pending in a loop over the keys of a dict. */
  lemma PendingLess<V>(m: map<Key, V>, pending: set<Key>, key: Key)
    requires key in pending
    ensures m - (pending - {key}) == if key in m then (m - pending)[key := m[key]] else m - pending
  {
  }

  datatype Resolution = Resolved(toWrite: Store) | Conflicting(conflicts: set<Key>)

  /** The shared helper as written: find the conflicts, then fill the dict of entries to write.
      Iterating a dict is modelled by taking its keys in any order. */
  method ResolveConflicts(items: Store, strategy: Strategy, contains: Key -> bool, get: Key -> Value)
    returns (r: Resolution)
    requires strategy != Overwrite
    ensures var conflicts := set k | k in items && contains(k);
            r == if strategy == Raise && conflicts != {} then Conflicting(conflicts)
                 else Resolved(ToWrite(items, strategy, conflicts, map k | k in conflicts :: get(k)))
  {
    var conflicts := set k | k in items && contains(k);
    if conflicts != {} && strategy == Raise {
      return Conflicting(conflicts);
    }
    ghost var meant := ToWrite(items, strategy, conflicts, map k | k in conflicts :: get(k));
    assert meant - items.Keys == map[];
    var toWrite: Store := map[];
    var pending := items.Keys;
    while pending != {}
      invariant pending <= items.Keys
      invariant toWrite == meant - pending
      decreases pending
    {
      var key :| key in pending;
      PendingLess(meant, pending, key);
      pending := pending - {key};
      var value := items[key];
      if key in conflicts {
        if strategy == Skip {
          continue;
        }
        toWrite := toWrite[key := get(key) + value];
        continue;
      }
      toWrite := toWrite[key := value];
    }
    return Resolved(toWrite);
  }

  /** The helper called with lookups in one and the same store: its answer is the sequential meaning. */
  method ResolveAgainst(s: Store, items: Store, strategy: Strategy) returns (r: Resolution)
    requires strategy != Overwrite
    ensures var (after, out) := SetMany(s, items, strategy);
            if r.Conflicting? then out == KeyError(r.conflicts)
            else out == Written && after == s + r.toWrite && r.toWrite == Effect(s, items, strategy)
  {
    var contains: Key -> bool := k => k in s;
    var get: Key -> Value := k => if k in s then s[k] else map[];
    r := ResolveConflicts(items, strategy, contains, get);
    ghost var conflicts := set k | k in items && contains(k);
    ghost var got := map k | k in conflicts :: get(k);
    assert conflicts == items.Keys * s.Keys;
    if r.Resolved? {
      ToWriteIsEffect(s, items, strategy, conflicts, got);
    }
  }
}
