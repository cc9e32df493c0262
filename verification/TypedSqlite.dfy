/** The SQLite store with typed columns: row codec, chunked statements, and the simulation of a plain store. */
module TypedSqlite {
  import opened Stores
  import opened Batching

  datatype SqlValue = SqlNull | SqlNum(n: real) | SqlText(s: string)

  /** The `extra` column: NULL or a JSON object. */
  datatype Extra = NoExtra | Object(value: Value)

  /** One row, without its key: a column per schema field, and the overflow. */
  datatype Row = Row(cols: map<Field, SqlValue>, extra: Extra)

  type Table = map<Key, Row>

  const MAX_SQL_VARIABLES := 900

  function Truth(b: bool): real {
    if b then 1.0 else 0.0
  }

  /** How a scalar is bound to a statement, or extracted from JSON; a container is extracted as its text. */
  function ToSql(j: Json): SqlValue {
    match j
    case Null => SqlNull
    case Bool(b) => SqlNum(Truth(b))
    case Num(n) => SqlNum(n)
    case Str(s) => SqlText(s)
    case Nested(text) => SqlText(text)
  }

  function FromSql(v: SqlValue): Json {
    match v
    case SqlNull => Null
    case SqlNum(n) => Num(n)
    case SqlText(s) => Str(s)
  }

  /** `dict.get`: a missing field reads as None. */
  function Get(value: Value, f: Field): Json {
    if f in value then value[f] else Null
  }

  function ValueToRow(schema: set<Field>, value: Value): Row {
    var extra := map f | f in value && f !in schema :: value[f];
    Row(map f | f in schema :: ToSql(Get(value, f)), if extra == map[] then NoExtra else Object(extra))
  }

  function RowToValue(row: Row): Value {
    var known := map f | f in row.cols && row.cols[f] != SqlNull :: FromSql(row.cols[f]);
    match row.extra
    case NoExtra => known
    case Object(extra) => known + extra
  }

  /** SQLite binds no containers, so typed columns hold scalars only. */
  ghost predicate Bindable(schema: set<Field>, value: Value) {
    forall f :: f in value && f in schema ==> !value[f].Nested?
  }

  /** A value as a typed table can show it: schema fields that are None are dropped, booleans in typed
      columns are numbers. */
  function Normalized(schema: set<Field>, value: Value): Value {
    map f | f in value && !(f in schema && value[f] == Null) ::
      if f in schema && value[f].Bool? then Num(Truth(value[f].b)) else value[f]
  }

  lemma RowRoundTrip(schema: set<Field>, value: Value)
    requires Bindable(schema, value)
    ensures RowToValue(ValueToRow(schema, value)) == Normalized(schema, value)
  {
    var extra := map f | f in value && f !in schema :: value[f];
    var row := ValueToRow(schema, value);
    var known := map f | f in row.cols && row.cols[f] != SqlNull :: FromSql(row.cols[f]);
    assert RowToValue(row) == known + extra;
  }

  /** A boolean in a typed column is stored as 1 or 0 and read back as that number. */
  lemma BooleanReadsBackAsNumber(f: Field, b: bool)
    ensures RowToValue(ValueToRow({f}, map[f := Bool(b)])) == map[f := Num(if b then 1.0 else 0.0)]
    ensures ValueToRow({f}, map[f := Bool(b)]).cols == map[f := SqlNum(if b then 1.0 else 0.0)]
  {
    RowRoundTrip({f}, map[f := Bool(b)]);
  }

  /** The row of any value: NULL for a schema field that is missing or None, the overflow only if a field is
      outside the schema, and then exactly those fields. */
  lemma EncodedRow(schema: set<Field>, value: Value, f: Field)
    ensures var row := ValueToRow(schema, value);
            && row.cols.Keys == schema
            && (f in schema ==> (row.cols[f] == SqlNull <==> f !in value || value[f] == Null))
            && (row.extra == NoExtra <==> value.Keys <= schema)
            && (row.extra.Object? ==> row.extra.value == map g | g in value && g !in schema :: value[g])
  {
    var extra := map g | g in value && g !in schema :: value[g];
    assert extra == map[] <==> value.Keys <= schema by {
      if extra == map[] {
        forall g | g in value ensures g in schema {
          assert g !in extra;
        }
      }
    }
  }

  /** A field of any row, written by this schema or not: the overflow wins over the column, NULL is nothing. */
  lemma DecodedField(row: Row, f: Field)
    ensures var value := RowToValue(row);
            if row.extra.Object? && f in row.extra.value then f in value && value[f] == row.extra.value[f]
            else if f in row.cols && row.cols[f] != SqlNull then f in value && value[f] == FromSql(row.cols[f])
            else f !in value
  {
  }

  /** The round trip is the identity exactly on the values without None or booleans in typed columns. */
  lemma RowRoundTripIsIdentity(schema: set<Field>, value: Value)
    requires Bindable(schema, value)
    ensures RowToValue(ValueToRow(schema, value)) == value
            <==> forall f :: f in value && f in schema ==> value[f] != Null && !value[f].Bool?
  {
    RowRoundTrip(schema, value);
    if Normalized(schema, value) == value {
      forall f | f in value && f in schema ensures value[f] != Null && !value[f].Bool? {
        assert f in Normalized(schema, value);
      }
    }
  }

  /** Merging into what was read back, then storing, is merging into the original. */
  lemma NormalizedMerge(schema: set<Field>, before: Value, value: Value)
    ensures Normalized(schema, Normalized(schema, before) + value) == Normalized(schema, before + value)
  {
  }

  lemma NormalizedIsBindable(schema: set<Field>, value: Value)
    requires Bindable(schema, value)
    ensures Bindable(schema, Normalized(schema, value))
  {
  }

  // ---- the table as a store ----

  function Decode(table: Table): Store {
    map k | k in table :: RowToValue(table[k])
  }

  function NormalizedStore(schema: set<Field>, s: Store): Store {
    map k | k in s :: Normalized(schema, s[k])
  }

  function Encode(schema: set<Field>, s: Store): Table {
    map k | k in s :: ValueToRow(schema, s[k])
  }

  ghost predicate AllBindable(schema: set<Field>, s: Store) {
    forall k :: k in s ==> Bindable(schema, s[k])
  }

  function TypedSetMany(schema: set<Field>, table: Table, items: Store, strategy: Strategy): (Table, Outcome) {
    var now := Decode(table);
    if strategy == Raise && items.Keys * now.Keys != {} then (table, KeyError(items.Keys * now.Keys))
    else (table + Encode(schema, Effect(now, items, strategy)), Written)
  }

  datatype Op = Write(items: Store, strategy: Strategy) | DeleteMany(keys: set<Key>) | Clear

  function PlainStep(s: Store, op: Op): (Store, Outcome) {
    match op
    case Write(items, strategy) => Stores.SetMany(s, items, strategy)
    case DeleteMany(keys) => (s - keys, Written)
    case Clear => (map[], Written)
  }

  function TypedStep(schema: set<Field>, table: Table, op: Op): (Table, Outcome) {
    match op
    case Write(items, strategy) => TypedSetMany(schema, table, items, strategy)
    case DeleteMany(keys) => (table - keys, Written)
    case Clear => (map[], Written)
  }

  function PlainRun(s: Store, ops: seq<Op>): (Store, seq<Outcome>)
    decreases |ops|
  {
    if ops == [] then (s, [])
    else
      var (s1, out) := PlainStep(s, ops[0]);
      var (s2, outs) := PlainRun(s1, ops[1..]);
      (s2, [out] + outs)
  }

  function TypedRun(schema: set<Field>, table: Table, ops: seq<Op>): (Table, seq<Outcome>)
    decreases |ops|
  {
    if ops == [] then (table, [])
    else
      var (t1, out) := TypedStep(schema, table, ops[0]);
      var (t2, outs) := TypedRun(schema, t1, ops[1..]);
      (t2, [out] + outs)
  }

  ghost predicate OpBindable(schema: set<Field>, op: Op) {
    op.Write? ==> AllBindable(schema, op.items)
  }

  /** The table shows the plain store, normalized. */
  ghost predicate Shows(schema: set<Field>, table: Table, s: Store) {
    AllBindable(schema, s) && Decode(table) == NormalizedStore(schema, s)
  }

  lemma DecodePlus(a: Table, b: Table, keys: set<Key>)
    ensures Decode(a + b) == Decode(a) + Decode(b)
    ensures Decode(a - keys) == Decode(a) - keys
  {
  }

  lemma NormalizedPlus(schema: set<Field>, a: Store, b: Store, keys: set<Key>)
    ensures NormalizedStore(schema, a + b) == NormalizedStore(schema, a) + NormalizedStore(schema, b)
    ensures NormalizedStore(schema, a - keys) == NormalizedStore(schema, a) - keys
  {
  }

  lemma EntryIsShown(schema: set<Field>, s: Store, k: Key, value: Value, strategy: Strategy)
    requires Bindable(schema, value) && (k in s ==> Bindable(schema, s[k]))
    ensures Bindable(schema, EntryAfter(s, k, value, strategy))
    ensures RowToValue(ValueToRow(schema, EntryAfter(NormalizedStore(schema, s), k, value, strategy)))
         == Normalized(schema, EntryAfter(s, k, value, strategy))
  {
    if k in s {
      NormalizedIsBindable(schema, s[k]);
      NormalizedMerge(schema, s[k], value);
    }
    RowRoundTrip(schema, EntryAfter(NormalizedStore(schema, s), k, value, strategy));
  }

  lemma EffectDecodes(schema: set<Field>, s: Store, items: Store, strategy: Strategy)
    requires AllBindable(schema, s) && AllBindable(schema, items)
    ensures AllBindable(schema, Effect(s, items, strategy))
    ensures Decode(Encode(schema, Effect(NormalizedStore(schema, s), items, strategy)))
         == NormalizedStore(schema, Effect(s, items, strategy))
  {
    var plain, typed := Effect(s, items, strategy), Effect(NormalizedStore(schema, s), items, strategy);
    assert typed.Keys == plain.Keys;
    forall k | k in plain
      ensures Bindable(schema, plain[k]) && RowToValue(ValueToRow(schema, typed[k])) == Normalized(schema, plain[k])
    {
      EntryIsShown(schema, s, k, items[k], strategy);
    }
  }

  lemma EffectIsShown(schema: set<Field>, table: Table, s: Store, items: Store, strategy: Strategy)
    requires Shows(schema, table, s) && AllBindable(schema, items)
    ensures Shows(schema, table + Encode(schema, Effect(Decode(table), items, strategy)),
                  s + Effect(s, items, strategy))
  {
    EffectDecodes(schema, s, items, strategy);
    DecodePlus(table, Encode(schema, Effect(Decode(table), items, strategy)), {});
    NormalizedPlus(schema, s, Effect(s, items, strategy), {});
  }

  lemma StepIsShown(schema: set<Field>, table: Table, s: Store, op: Op)
    requires Shows(schema, table, s) && OpBindable(schema, op)
    ensures var ((t1, out1), (s1, out2)) := (TypedStep(schema, table, op), PlainStep(s, op));
            Shows(schema, t1, s1) && out1 == out2
  {
    match op
    case Write(items, strategy) =>
      assert Decode(table).Keys == s.Keys;
      EffectIsShown(schema, table, s, items, strategy);
    case DeleteMany(keys) =>
      DecodePlus(table, map[], keys);
      NormalizedPlus(schema, s, map[], keys);
    case Clear =>
  }

  /** Simulation over whole runs: after any writes, deletes and clears the typed table decodes to the plain
      store normalized, and errors occur at the same steps with the same keys. */
  lemma {:induction false} TypedStoreSimulatesPlain(schema: set<Field>, table: Table, s: Store, ops: seq<Op>)
    requires Shows(schema, table, s) && forall op :: op in ops ==> OpBindable(schema, op)
    ensures var ((t2, outs1), (s2, outs2)) := (TypedRun(schema, table, ops), PlainRun(s, ops));
            Decode(t2) == NormalizedStore(schema, s2) && outs1 == outs2
    decreases |ops|
  {
    if ops != [] {
      assert ops[0] in ops;
      StepIsShown(schema, table, s, ops[0]);
      TypedStoreSimulatesPlain(schema, TypedStep(schema, table, ops[0]).0, PlainStep(s, ops[0]).0, ops[1..]);
    }
  }

  datatype Found = Missing | Present(value: Value)

  function Lookup(table: Table, key: Key): Found {
    if key in table then Present(RowToValue(table[key])) else Missing
  }

  /** Slices of at most `size` elements, at multiples of `size`. */
  method Chunk<T>(items: seq<T>, size: nat) returns (chunks: seq<seq<T>>)
    requires size > 0
    ensures chunks == Chunks(items, size)
  {
    chunks := [];
    var start := 0;
    while start < |items|
      invariant 0 <= start <= |items|
      invariant Flatten(chunks) == items[..start]
      invariant forall b :: 0 <= b < |chunks| ==> 0 < |chunks[b]| <= size && (start < |items| ==> |chunks[b]| == size)
      invariant forall b :: 0 <= b < |chunks| - 1 ==> |chunks[b]| == size
    {
      var end := if start + size < |items| then start + size else |items|;
      FlattenAppend(chunks, items[start..end]);
      assert items[..start] + items[start..end] == items[..end];
      chunks := chunks + [items[start..end]];
      start := end;
    }
    assert items[..|items|] == items;
    WellCutIsChunks(items, chunks, size);
  }

  /** The decoded rows of these keys. */
  function DecodedAt(table: Table, keys: seq<Key>): Store {
    map k | k in table && k in keys :: RowToValue(table[k])
  }

  lemma DecodedAtMore(table: Table, a: seq<Key>, b: seq<Key>)
    ensures DecodedAt(table, a + b) == DecodedAt(table, a) + DecodedAt(table, b)
  {
  }

  /** No statement binds more variables than SQLite's smallest default limit of 999. */
  lemma StatementsFit(keys: seq<Key>, b: nat)
    requires b < |Chunks(keys, MAX_SQL_VARIABLES)|
    ensures 0 < |Chunks(keys, MAX_SQL_VARIABLES)[b]| <= 900 < 999
    ensures b < |Chunks(keys, MAX_SQL_VARIABLES)| - 1 ==> |Chunks(keys, MAX_SQL_VARIABLES)[b]| == 900
  {
    ChunksAreWellCut(keys, MAX_SQL_VARIABLES);
  }

  class TypedSqliteStore {
    const schema: set<Field>
    var table: Table

    constructor (schema: set<Field>)
      ensures this.schema == schema && table == map[]
    {
      this.schema := schema;
      table := map[];
    }

    /** Resolve against the decoded rows, then write rows. */
    method SetMany(items: Store, strategy: Strategy) returns (out: Outcome)
      modifies this`table
      ensures (table, out) == TypedSetMany(schema, old(table), items, strategy)
    {
      var now := Decode(table);
      if items == map[] {
        assert Encode(schema, Effect(now, items, strategy)) == map[];
        assert table + map[] == table;
        return Written;
      }
      if strategy == Overwrite {
        OverwriteEffect(now, items);
        table := table + Encode(schema, items);
        return Written;
      }
      var resolution := ResolveAgainst(now, items, strategy);
      if resolution.Conflicting? {
        return KeyError(resolution.conflicts);
      }
      table := table + Encode(schema, resolution.toWrite);
      return Written;
    }

    /** One DELETE statement per chunk of keys. */
    method DeleteMany(keys: seq<Key>)
      modifies this`table
      ensures table == old(table) - set k | k in keys
    {
      var chunks := Chunk(keys, MAX_SQL_VARIABLES);
      ChunksAreWellCut(keys, MAX_SQL_VARIABLES);
      for c := 0 to |chunks|
        invariant table == old(table) - set k | k in Flatten(chunks[..c])
      {
        table := table - set k | k in chunks[c];
        FlattenAppend(chunks[..c], chunks[c]);
        assert chunks[..c + 1] == chunks[..c] + [chunks[c]];
      }
      assert chunks[..|chunks|] == chunks;
    }

    method Clear()
      modifies this`table
      ensures table == map[]
    {
      table := map[];
    }

    /** One SELECT per chunk of keys, then one answer per requested key, in order, repetitions included. */
    method GetMany(keys: seq<Key>) returns (values: seq<Found>)
      ensures |values| == |keys|
      ensures forall i :: 0 <= i < |keys| ==> values[i] == Lookup(table, keys[i])
    {
      var byKey: Store := map[];
      var chunks := Chunk(keys, MAX_SQL_VARIABLES);
      ChunksAreWellCut(keys, MAX_SQL_VARIABLES);
      for c := 0 to |chunks|
        invariant byKey == DecodedAt(table, Flatten(chunks[..c]))
      {
        DecodedAtMore(table, Flatten(chunks[..c]), chunks[c]);
        byKey := byKey + DecodedAt(table, chunks[c]);
        FlattenAppend(chunks[..c], chunks[c]);
        assert chunks[..c + 1] == chunks[..c] + [chunks[c]];
      }
      assert chunks[..|chunks|] == chunks;
      values := seq(|keys|, i requires 0 <= i < |keys| =>
        if keys[i] in byKey then Present(byKey[keys[i]]) else Missing);
    }
  }
}
