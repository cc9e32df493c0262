/** Field filters pushed down to SQL against the same filters evaluated in Python. */
module SqlFilter {
  import opened Stores
  import opened Batching
  import opened TypedSqlite

  // ---- the Python side ----

  function AsNumber(j: Json): real
    requires j.Bool? || j.Num?
  {
    if j.Bool? then Truth(j.b) else j.n
  }

  /** Python's `==` on field values: True equals 1. */
  predicate PyEqual(a: Json, b: Json) {
    if (a.Bool? || a.Num?) && (b.Bool? || b.Num?) then AsNumber(a) == AsNumber(b) else a == b
  }

  /** Keyword filters, in call order. */
  type Filters = seq<(Field, Json)>

  predicate Matches(value: Value, filters: Filters) {
    forall i :: 0 <= i < |filters| ==> PyEqual(Get(value, filters[i].0), filters[i].1)
  }

  // ---- the SQL side ----

  datatype Tri = True | False | Unknown

  function SqlEqual(a: SqlValue, b: SqlValue): Tri {
    if a == SqlNull || b == SqlNull then Unknown else if a == b then True else False
  }

  function SqlAnd(a: Tri, b: Tri): Tri {
    if a == False || b == False then False else if a == True && b == True then True else Unknown
  }

  /** The truth tables: NULL makes a comparison unknown, and unknown loses to false only. */
  lemma ThreeValuedLogic(a: SqlValue, b: SqlValue, x: Tri, y: Tri)
    ensures SqlEqual(a, b) == Unknown <==> a == SqlNull || b == SqlNull
    ensures SqlEqual(a, b) == True <==> a == b && a != SqlNull
    ensures SqlAnd(x, y) == SqlAnd(y, x)
    ensures SqlAnd(True, x) == x && SqlAnd(False, x) == False && SqlAnd(Unknown, Unknown) == Unknown
  {
  }

  datatype Expr = Column(name: Field) | JsonExtract(name: Field)

  /** A condition of the WHERE clause; `Equals` has a placeholder, bound in order. */
  datatype Condition = IsNull(expr: Expr) | Equals(expr: Expr)

  function Eval(row: Row, expr: Expr): SqlValue {
    match expr
    case Column(name) => if name in row.cols then row.cols[name] else SqlNull
    case JsonExtract(name) => if row.extra.Object? then ToSql(Get(row.extra.value, name)) else SqlNull
  }

  function Placeholders(conditions: seq<Condition>): nat {
    if conditions == [] then 0
    else Placeholders(conditions[..|conditions| - 1]) + if conditions[|conditions| - 1].Equals? then 1 else 0
  }

  /** The WHERE clause on a row: conditions joined by AND, placeholders taken from the bound values. */
  function Where(row: Row, conditions: seq<Condition>, values: seq<Json>): Tri
    requires |values| == Placeholders(conditions)
  {
    if conditions == [] then True
    else
      var n := |conditions| - 1;
      match conditions[n]
      case IsNull(expr) =>
        SqlAnd(Where(row, conditions[..n], values), if Eval(row, expr) == SqlNull then True else False)
      case Equals(expr) =>
        SqlAnd(Where(row, conditions[..n], values[..|values| - 1]),
               SqlEqual(Eval(row, expr), ToSql(values[|values| - 1])))
  }

  predicate Letter(c: char) {
    'a' <= c <= 'z' || 'A' <= c <= 'Z' || c == '_'
  }

  predicate Identifier(name: string) {
    |name| > 0 && Letter(name[0]) && forall i :: 0 <= i < |name| ==> Letter(name[i]) || '0' <= name[i] <= '9'
  }

  /** The pattern's `$` also matches before a final line feed. */
  predicate ValidFieldName(name: string) {
    Identifier(name) || (|name| > 0 && name[|name| - 1] == '\n' && Identifier(name[..|name| - 1]))
  }

  /** Examples on both sides. */
  lemma FieldNameExamples()
    ensures ValidFieldName("user_id") && ValidFieldName("_9") && ValidFieldName("A") && ValidFieldName("a\n")
    ensures !ValidFieldName("") && !ValidFieldName("bad name") && !ValidFieldName("9a") && !ValidFieldName("\n")
    ensures !ValidFieldName("a\n\n") && !ValidFieldName("a.b") && !ValidFieldName("a'")
  {
    var names := ["bad name", "9a", "a\n\n", "a.b", "a'"];
    assert names[0][3] == ' ' && names[1][0] == '9' && names[2][1] == '\n' && names[3][1] == '.' && names[4][1] == '\'';
    assert "a\n"[..1] == "a" && "a\n\n"[..2] == "a\n";
  }

  /** A name can be put between the quotes of the extracted path: apart from one final line feed it is made of
      letters, digits and underscores, and every such name that does not start with a digit is accepted. */
  lemma FieldNamesAreWords(name: string)
    ensures ValidFieldName(name) <==>
              var core := if |name| > 0 && name[|name| - 1] == '\n' then name[..|name| - 1] else name;
              && core != "" && !('0' <= core[0] <= '9')
              && forall c :: c in core ==> 'a' <= c <= 'z' || 'A' <= c <= 'Z' || c == '_' || '0' <= c <= '9'
  {
    var core := if |name| > 0 && name[|name| - 1] == '\n' then name[..|name| - 1] else name;
    if Identifier(core) {
      forall c | c in core ensures Letter(c) || '0' <= c <= '9' {
        var i :| 0 <= i < |core| && core[i] == c;
      }
    }
    if core != "" && !('0' <= core[0] <= '9') && forall c :: c in core ==> Letter(c) || '0' <= c <= '9' {
      assert core[0] in core;
      forall i | 0 <= i < |core| ensures Letter(core[i]) || '0' <= core[i] <= '9' {
        assert core[i] in core;
      }
    }
  }

  /** Names outside the schema must be valid field names. */
  predicate Accepted(schema: set<Field>, filters: Filters) {
    forall i :: 0 <= i < |filters| ==> filters[i].0 in schema || ValidFieldName(filters[i].0)
  }

  /** Rows as the codec writes them: a column per schema field and no schema field in the overflow. */
  ghost predicate RowOf(schema: set<Field>, row: Row) {
    row.cols.Keys == schema && (row.extra.Object? ==> forall f :: f in row.extra.value ==> f !in schema)
  }

  lemma EncodedIsRow(schema: set<Field>, value: Value)
    ensures RowOf(schema, ValueToRow(schema, value))
  {
  }

  /** SQL cannot tell a list or dict from the string that spells it. */
  predicate LooksEqual(schema: set<Field>, value: Value, f: Field, expected: Json) {
    f !in schema && Get(value, f).Nested? && expected == Str(Get(value, f).text)
  }

  /** What the compiled clause selects, in terms of the decoded value. */
  predicate Selects(schema: set<Field>, value: Value, filters: Filters) {
    forall i :: 0 <= i < |filters| ==>
      PyEqual(Get(value, filters[i].0), filters[i].1) || LooksEqual(schema, value, filters[i].0, filters[i].1)
  }

  predicate ScalarFilters(filters: Filters) {
    forall i :: 0 <= i < |filters| ==> !filters[i].1.Nested?
  }

  function FilterExpr(schema: set<Field>, f: Field): Expr {
    if f in schema then Column(f) else JsonExtract(f)
  }

  function Test(row: Row, expr: Expr, expected: Json): Tri {
    if expected == Null then (if Eval(row, expr) == SqlNull then True else False)
    else SqlEqual(Eval(row, expr), ToSql(expected))
  }

  /** One condition: true under three-valued logic exactly when Python's comparison is, or the text of a
      container equals the expected string. */
  lemma TestIsEquality(schema: set<Field>, row: Row, f: Field, expected: Json)
    requires RowOf(schema, row) && !expected.Nested?
    ensures Test(row, FilterExpr(schema, f), expected) == True
            <==> PyEqual(Get(RowToValue(row), f), expected) || LooksEqual(schema, RowToValue(row), f, expected)
  {
    FieldOfRow(schema, row, f);
  }

  lemma FieldOfRow(schema: set<Field>, row: Row, f: Field)
    requires RowOf(schema, row)
    ensures Eval(row, FilterExpr(schema, f)) == ToSql(Get(RowToValue(row), f))
    ensures f in schema ==> !Get(RowToValue(row), f).Nested? && !Get(RowToValue(row), f).Bool?
  {
  }

  /** A filter f = 1 finds exactly the values whose f is true or 1, f = 0 those whose f is false or 0. */
  lemma NumberFiltersFindBooleans(f: Field, b: bool)
    ensures Matches(map[f := Bool(b)], [(f, Num(1.0))]) <==> b
    ensures Matches(map[f := Bool(b)], [(f, Num(0.0))]) <==> !b
    ensures Matches(map[f := Num(if b then 1.0 else 0.0)], [(f, Bool(true))]) <==> b
  {
    OneFilter(map[f := Bool(b)], f, Num(1.0));
    OneFilter(map[f := Bool(b)], f, Num(0.0));
    OneFilter(map[f := Num(if b then 1.0 else 0.0)], f, Bool(true));
  }

  lemma OneFilter(value: Value, f: Field, expected: Json)
    ensures Matches(value, [(f, expected)]) <==> PyEqual(Get(value, f), expected)
  {
    var filters: Filters := [(f, expected)];
    assert filters[0] == (f, expected);
  }

  /** The typed codec cannot be noticed by filters: what it drops or converts compares the same. */
  lemma NormalizationIsInvisible(schema: set<Field>, value: Value, filters: Filters)
    ensures Matches(Normalized(schema, value), filters) == Matches(value, filters)
  {
    forall i | 0 <= i < |filters|
      ensures PyEqual(Get(Normalized(schema, value), filters[i].0), filters[i].1)
           == PyEqual(Get(value, filters[i].0), filters[i].1)
    {
    }
  }

  datatype Compiled = Clause(conditions: seq<Condition>, values: seq<Json>) | InvalidName

  /** The conditions with their bound values select exactly the rows whose decoded value the filters select. */
  ghost predicate Compiles(schema: set<Field>, filters: Filters, conditions: seq<Condition>, values: seq<Json>) {
    && |values| == Placeholders(conditions)
    && forall row :: RowOf(schema, row) ==>
         (Where(row, conditions, values) == True <==> Selects(schema, RowToValue(row), filters))
  }

  function AddCondition(schema: set<Field>, f: Field, expected: Json, conditions: seq<Condition>): seq<Condition> {
    var expr := FilterExpr(schema, f);
    conditions + [if expected == Null then IsNull(expr) else Equals(expr)]
  }

  function AddBound(expected: Json, values: seq<Json>): seq<Json> {
    if expected == Null then values else values + [expected]
  }

  lemma CompilesStep(schema: set<Field>, filters: Filters, i: nat, conditions: seq<Condition>, values: seq<Json>)
    requires i < |filters| && !filters[i].1.Nested? && Compiles(schema, filters[..i], conditions, values)
    ensures Compiles(schema, filters[..i + 1], AddCondition(schema, filters[i].0, filters[i].1, conditions),
                     AddBound(filters[i].1, values))
  {
    var (f, expected) := filters[i];
    var conditions', values' := AddCondition(schema, f, expected, conditions), AddBound(expected, values);
    assert conditions'[..|conditions|] == conditions;
    assert expected != Null ==> values'[..|values|] == values;
    forall row | RowOf(schema, row)
      ensures Where(row, conditions', values') == True <==> Selects(schema, RowToValue(row), filters[..i + 1])
    {
      assert Where(row, conditions', values')
          == SqlAnd(Where(row, conditions, values), Test(row, FilterExpr(schema, f), expected));
      TestIsEquality(schema, row, f, expected);
      SelectsStep(schema, RowToValue(row), filters, i);
    }
  }

  ghost predicate AllScalar(values: seq<Json>) {
    forall j :: 0 <= j < |values| ==> !values[j].Nested?
  }

  /** Builds the clause and its bound values. A list or dict among the filters ends up among the bound values;
      without one the result is exact on every row. */
  method BuildFilterWhere(schema: set<Field>, filters: Filters) returns (r: Compiled)
    ensures r == InvalidName <==> !Accepted(schema, filters)
    ensures r.Clause? ==> |r.values| == Placeholders(r.conditions)
    ensures r.Clause? ==> (AllScalar(r.values) <==> ScalarFilters(filters))
    ensures r.Clause? && ScalarFilters(filters) ==> Compiles(schema, filters, r.conditions, r.values)
  {
    var conditions: seq<Condition>, values: seq<Json> := [], [];
    for i := 0 to |filters|
      invariant Accepted(schema, filters[..i])
      invariant Built(schema, filters[..i], conditions, values)
    {
      var (f, expected) := filters[i];
      if f !in schema && !ValidFieldName(f) {
        return InvalidName;
      }
      BuiltStep(schema, filters, i, conditions, values);
      var expr := FilterExpr(schema, f);
      if expected == Null {
        conditions := conditions + [IsNull(expr)];
      } else {
        conditions := conditions + [Equals(expr)];
        values := values + [expected];
      }
    }
    assert filters[..|filters|] == filters;
    return Clause(conditions, values);
  }

  /** What holds of the lists after some of the filters. */
  ghost predicate Built(schema: set<Field>, filters: Filters, conditions: seq<Condition>, values: seq<Json>) {
    && |values| == Placeholders(conditions)
    && (AllScalar(values) <==> ScalarFilters(filters))
    && (ScalarFilters(filters) ==> Compiles(schema, filters, conditions, values))
  }

  lemma BuiltStep(schema: set<Field>, filters: Filters, i: nat, conditions: seq<Condition>, values: seq<Json>)
    requires i < |filters| && Built(schema, filters[..i], conditions, values)
    ensures Built(schema, filters[..i + 1], AddCondition(schema, filters[i].0, filters[i].1, conditions),
                  AddBound(filters[i].1, values))
  {
    ScalarStep(filters, i, values);
    PlaceholdersStep(schema, filters[i].0, filters[i].1, conditions);
    if ScalarFilters(filters[..i + 1]) {
      CompilesStep(schema, filters, i, conditions, values);
    }
  }

  lemma ScalarStep(filters: Filters, i: nat, values: seq<Json>)
    requires i < |filters| && (AllScalar(values) <==> ScalarFilters(filters[..i]))
    ensures AllScalar(AddBound(filters[i].1, values)) <==> ScalarFilters(filters[..i + 1])
    ensures ScalarFilters(filters[..i + 1]) <==> ScalarFilters(filters[..i]) && !filters[i].1.Nested?
  {
    assert filters[..i + 1] == filters[..i] + [filters[i]];
    var more := AddBound(filters[i].1, values);
    assert forall j :: 0 <= j < |values| ==> more[j] == values[j];
    assert filters[i].1 != Null ==> more[|values|] == filters[i].1;
  }

  lemma PlaceholdersStep(schema: set<Field>, f: Field, expected: Json, conditions: seq<Condition>)
    ensures Placeholders(AddCondition(schema, f, expected, conditions))
         == Placeholders(conditions) + if expected == Null then 0 else 1
  {
    assert AddCondition(schema, f, expected, conditions)[..|conditions|] == conditions;
  }

  lemma SelectsStep(schema: set<Field>, value: Value, filters: Filters, i: nat)
    requires i < |filters|
    ensures Selects(schema, value, filters[..i + 1])
            <==> Selects(schema, value, filters[..i])
                 && (PyEqual(Get(value, filters[i].0), filters[i].1)
                    || LooksEqual(schema, value, filters[i].0, filters[i].1))
  {
    assert filters[..i + 1] == filters[..i] + [filters[i]];
  }

  // ---- the two branches of the record store's filter ----

  /** Rows in the order the table is read. */
  type Rows = seq<(Key, Row)>

  function DecodeRows(rows: Rows): seq<(Key, Value)> {
    seq(|rows|, i requires 0 <= i < |rows| => (rows[i].0, RowToValue(rows[i].1)))
  }

  function Kept(values: seq<(Key, Value)>, filters: Filters): seq<(Key, Value)> {
    if values == [] then []
    else
      var n := |values| - 1;
      Kept(values[..n], filters) + if Matches(values[n].1, filters) then [values[n]] else []
  }

  datatype Filtered = Records(records: seq<(Key, Value)>) | NameRejected | NotBindable

  /** What the fast path answers for rows with these decoded values. */
  function FastPath(schema: set<Field>, values: seq<(Key, Value)>, filters: Filters): Filtered {
    if !Accepted(schema, filters) then NameRejected
    else if !ScalarFilters(filters) then NotBindable
    else Records(Selected(schema, values, filters))
  }

  /** Fast path: SELECT ... WHERE, then decode. The driver refuses to bind a list or dict. */
  method FilterItems(schema: set<Field>, rows: Rows, filters: Filters) returns (r: Filtered)
    requires forall i :: 0 <= i < |rows| ==> RowOf(schema, rows[i].1)
    ensures r == FastPath(schema, DecodeRows(rows), filters)
  {
    var compiled := BuildFilterWhere(schema, filters);
    if compiled == InvalidName {
      return NameRejected;
    }
    if exists j :: 0 <= j < |compiled.values| && compiled.values[j].Nested? {
      return NotBindable;
    }
    assert AllScalar(compiled.values);
    var records: seq<(Key, Value)> := [];
    for i := 0 to |rows|
      invariant records == Selected(schema, DecodeRows(rows)[..i], filters)
    {
      assert DecodeRows(rows)[..i + 1][..i] == DecodeRows(rows)[..i];
      if Where(rows[i].1, compiled.conditions, compiled.values) == True {
        records := records + [(rows[i].0, RowToValue(rows[i].1))];
      }
    }
    assert DecodeRows(rows)[..|rows|] == DecodeRows(rows);
    return Records(records);
  }

  /** The rows of the fast path, decoded. */
  function Selected(schema: set<Field>, values: seq<(Key, Value)>, filters: Filters): seq<(Key, Value)> {
    if values == [] then []
    else
      var n := |values| - 1;
      Selected(schema, values[..n], filters) + if Selects(schema, values[n].1, filters) then [values[n]] else []
  }

  /** No row passes only because a container is spelled like an expected string. */
  ghost predicate NoLookalikes(schema: set<Field>, values: seq<(Key, Value)>, filters: Filters) {
    forall i, j :: 0 <= i < |values| && 0 <= j < |filters| && Selects(schema, values[i].1, filters) ==>
                     !LooksEqual(schema, values[i].1, filters[j].0, filters[j].1)
  }

  lemma {:induction false} KeptIsShorter(schema: set<Field>, values: seq<(Key, Value)>, filters: Filters)
    ensures |Kept(values, filters)| <= |Selected(schema, values, filters)|
    ensures |Kept(values, filters)| == |Selected(schema, values, filters)| ==>
              Kept(values, filters) == Selected(schema, values, filters)
              && forall i :: 0 <= i < |values| && Selects(schema, values[i].1, filters) ==>
                     Matches(values[i].1, filters)
    ensures (forall i :: 0 <= i < |values| && Selects(schema, values[i].1, filters) ==>
                   Matches(values[i].1, filters)) ==>
              Kept(values, filters) == Selected(schema, values, filters)
  {
    if values != [] {
      var n := |values| - 1;
      KeptIsShorter(schema, values[..n], filters);
      assert Matches(values[n].1, filters) ==> Selects(schema, values[n].1, filters);
      assert values[..n] + [values[n]] == values;
    }
  }

  lemma SelectedIsKept(schema: set<Field>, values: seq<(Key, Value)>, filters: Filters)
    requires ScalarFilters(filters)
    ensures Selected(schema, values, filters) == Kept(values, filters)
            <==> NoLookalikes(schema, values, filters)
  {
    KeptIsShorter(schema, values, filters);
    forall i | 0 <= i < |values| && Selects(schema, values[i].1, filters)
      ensures Matches(values[i].1, filters)
              <==> forall j :: 0 <= j < |filters| ==> !LooksEqual(schema, values[i].1, filters[j].0, filters[j].1)
    {
    }
  }

  /** No container outside the schema under a name a filter can use. */
  ghost predicate ScalarOverflow(schema: set<Field>, values: seq<(Key, Value)>) {
    forall i, f :: 0 <= i < |values| && f in values[i].1 && f !in schema && ValidFieldName(f) ==>
                     !values[i].1[f].Nested?
  }

  /** The fast path can be trusted with every filter exactly when the overflow holds only scalars. */
  lemma AlwaysAgreesExactlyWhenScalar(schema: set<Field>, values: seq<(Key, Value)>)
    ensures (forall filters :: ScalarFilters(filters) && Accepted(schema, filters) ==>
               Selected(schema, values, filters) == Kept(values, filters))
            <==> ScalarOverflow(schema, values)
  {
    if ScalarOverflow(schema, values) {
      forall filters | ScalarFilters(filters) && Accepted(schema, filters)
        ensures Selected(schema, values, filters) == Kept(values, filters)
      {
        SelectedIsKept(schema, values, filters);
      }
    } else {
      var i, f :| 0 <= i < |values| && f in values[i].1 && f !in schema && ValidFieldName(f) && values[i].1[f].Nested?;
      var filters: Filters := [(f, Str(values[i].1[f].text))];
      assert LooksEqual(schema, values[i].1, filters[0].0, filters[0].1);
      SelectedIsKept(schema, values, filters);
      assert Selects(schema, values[i].1, filters);
      assert ScalarFilters(filters) && Accepted(schema, filters);
    }
  }

  lemma KeptOneMore(values: seq<(Key, Value)>, last: (Key, Value), filters: Filters)
    ensures Kept(values + [last], filters) == Kept(values, filters) + if Matches(last.1, filters) then [last] else []
  {
    assert (values + [last])[..|values|] == values;
  }

  /** Full scan: every batch of the store, every record of the batch. */
  method FullScan(batches: seq<seq<(Key, Value)>>, filters: Filters) returns (records: seq<(Key, Value)>)
    ensures records == Kept(Flatten(batches), filters)
  {
    records := [];
    for b := 0 to |batches|
      invariant records == Kept(Flatten(batches[..b]), filters)
    {
      ghost var before := Flatten(batches[..b]);
      assert before + batches[b][..0] == before;
      for i := 0 to |batches[b]|
        invariant records == Kept(before + batches[b][..i], filters)
      {
        var record := batches[b][i];
        assert before + batches[b][..i + 1] == before + batches[b][..i] + [record];
        KeptOneMore(before + batches[b][..i], record, filters);
        if Matches(record.1, filters) {
          records := records + [record];
        }
      }
      assert batches[b][..|batches[b]|] == batches[b];
      FlattenAppend(batches[..b], batches[b]);
      assert batches[..b + 1] == batches[..b] + [batches[b]];
    }
    assert batches[..|batches|] == batches;
  }

  // ---- paging ----

  function Page<T>(rows: seq<T>, limit: nat, offset: nat): seq<T> {
    var rest := if offset <= |rows| then rows[offset..] else [];
    if limit <= |rest| then rest[..limit] else rest
  }

  datatype Paged<T> = Batches(batches: seq<seq<T>>) | BadBatchSize

  /** LIMIT/OFFSET paging over an unchanging table in key order. */
  method IterBatches<T>(rows: seq<T>, batchSize: int) returns (r: Paged<T>)
    ensures r == if batchSize < 1 then BadBatchSize else Batches(Chunks(rows, batchSize))
  {
    if batchSize < 1 {
      return BadBatchSize;
    }
    var batches: seq<seq<T>> := [];
    var offset := 0;
    while true
      invariant 0 <= offset <= |rows| && Flatten(batches) == rows[..offset]
      invariant forall b :: 0 <= b < |batches| ==> |batches[b]| == batchSize
      decreases |rows| - offset
    {
      var page := Page(rows, batchSize, offset);
      if page == [] {
        break;
      }
      FlattenAppend(batches, page);
      assert rows[..offset] + page == rows[..offset + |page|];
      batches := batches + [page];
      if |page| < batchSize {
        assert rows[..offset + |page|] == rows;
        WellCutIsChunks(rows, batches, batchSize);
        return Batches(batches);
      }
      offset := offset + batchSize;
    }
    assert rows[..offset] == rows;
    WellCutIsChunks(rows, batches, batchSize);
    return Batches(batches);
  }

  /** The async loop reads one cursor and flushes full batches; it cuts its rows at the same places. */
  method AsyncIterBatches<T>(rows: seq<T>, batchSize: int) returns (r: Paged<T>)
    ensures r == if batchSize < 1 then BadBatchSize else Batches(Chunks(rows, batchSize))
  {
    if batchSize < 1 {
      return BadBatchSize;
    }
    var batches: seq<seq<T>> := [];
    var batch: seq<T> := [];
    for i := 0 to |rows|
      invariant Flatten(batches) + batch == rows[..i] && |batch| < batchSize
      invariant forall b :: 0 <= b < |batches| ==> |batches[b]| == batchSize
    {
      batch := batch + [rows[i]];
      if |batch| >= batchSize {
        FlattenAppend(batches, batch);
        batches := batches + [batch];
        batch := [];
      }
    }
    assert rows[..|rows|] == rows;
    if batch != [] {
      FlattenAppend(batches, batch);
      batches := batches + [batch];
    }
    assert Flatten(batches) == rows;
    WellCutIsChunks(rows, batches, batchSize);
    return Batches(batches);
  }

  // ---- the two branches compared ----

  lemma MinusOne<T>(a: multiset<T>, b: multiset<T>, x: T)
    requires a + multiset{x} == b + multiset{x}
    ensures a == b
  {
    assert a == (a + multiset{x}) - multiset{x};
    assert b == (b + multiset{x}) - multiset{x};
  }

  function Without<T>(s: seq<T>, i: nat): seq<T>
    requires i < |s|
  {
    s[..i] + s[i + 1..]
  }

  lemma RemoveOne<T>(s: seq<T>, i: nat)
    requires i < |s|
    ensures multiset(s) == multiset(Without(s, i)) + multiset{s[i]}
  {
    assert s == s[..i] + [s[i]] + s[i + 1..];
  }

  lemma DecodeWithout(rows: Rows, i: nat)
    requires i < |rows|
    ensures multiset(DecodeRows(rows)) == multiset(DecodeRows(Without(rows, i))) + multiset{DecodeRows(rows)[i]}
  {
    assert DecodeRows(Without(rows, i)) == Without(DecodeRows(rows), i);
    RemoveOne(DecodeRows(rows), i);
  }

  lemma {:induction false} DecodePermutes(a: Rows, b: Rows)
    requires multiset(a) == multiset(b)
    ensures multiset(DecodeRows(a)) == multiset(DecodeRows(b))
    decreases |a|
  {
    SameSizes(a, b);
    if a != [] {
      assert a[0] in multiset(b);
      var i :| 0 <= i < |b| && b[i] == a[0];
      RemoveOne(a, 0);
      RemoveOne(b, i);
      MinusOne(multiset(Without(a, 0)), multiset(Without(b, i)), a[0]);
      DecodePermutes(Without(a, 0), Without(b, i));
      DecodeWithout(a, 0);
      DecodeWithout(b, i);
    }
  }

  lemma {:induction false} KeptCounts(values: seq<(Key, Value)>, filters: Filters, x: (Key, Value))
    ensures multiset(Kept(values, filters))[x] == if Matches(x.1, filters) then multiset(values)[x] else 0
  {
    if values != [] {
      var n := |values| - 1;
      KeptCounts(values[..n], filters, x);
      assert values == values[..n] + [values[n]];
    }
  }

  lemma KeptPermutes(a: seq<(Key, Value)>, b: seq<(Key, Value)>, filters: Filters)
    requires multiset(a) == multiset(b)
    ensures multiset(Kept(a, filters)) == multiset(Kept(b, filters))
  {
    forall x ensures multiset(Kept(a, filters))[x] == multiset(Kept(b, filters))[x] {
      KeptCounts(a, filters, x);
      KeptCounts(b, filters, x);
    }
  }

  /** The fast path raised nothing and returned the same records, up to order. */
  ghost predicate SameRecords(fast: Filtered, scanned: seq<(Key, Value)>) {
    fast.Records? && multiset(fast.records) == multiset(scanned)
  }

  /** The record store's two branches. The fast path reads the table in any order, the scan in key order and in
      batches: they return the same records exactly when no field name is rejected, no filter is a list or
      dict, and no selected record has a container spelled like an expected string. */
  lemma BothBranchesAgree(schema: set<Field>, rows: Rows, ordered: Rows, filters: Filters, batchSize: nat)
    requires batchSize > 0 && multiset(rows) == multiset(ordered)
    ensures SameRecords(FastPath(schema, DecodeRows(rows), filters),
                        Kept(Flatten(Chunks(DecodeRows(ordered), batchSize)), filters))
            <==> Accepted(schema, filters) && ScalarFilters(filters) && NoLookalikes(schema, DecodeRows(rows), filters)
  {
    var values := DecodeRows(rows);
    ChunksAreWellCut(DecodeRows(ordered), batchSize);
    DecodePermutes(rows, ordered);
    KeptPermutes(values, DecodeRows(ordered), filters);
    if ScalarFilters(filters) {
      SelectedIsKept(schema, values, filters);
      KeptIsShorter(schema, values, filters);
      SameSizes(Selected(schema, values, filters), Kept(values, filters));
    }
  }

  lemma SameSizes<T>(a: seq<T>, b: seq<T>)
    ensures multiset(a) == multiset(b) ==> |a| == |b|
  {
    assert |multiset(a)| == |a| && |multiset(b)| == |b|;
  }

  // ---- filters after a run of writes ----

  ghost predicate AllRows(schema: set<Field>, table: Table) {
    forall k :: k in table ==> RowOf(schema, table[k])
  }

  /** The rows of the table, each once, in some order. */
  ghost predicate Lists(rows: Rows, table: Table) {
    && (forall i, j :: 0 <= i < j < |rows| ==> rows[i].0 != rows[j].0)
    && (forall i :: 0 <= i < |rows| ==> rows[i].0 in table && rows[i].1 == table[rows[i].0])
    && (forall k :: k in table ==> exists i :: 0 <= i < |rows| && rows[i].0 == k)
  }

  /** Every row that a run of writes, deletes and clears leaves is one of the codec. */
  lemma {:induction false} RunKeepsRows(schema: set<Field>, table: Table, ops: seq<Op>)
    requires AllRows(schema, table)
    ensures AllRows(schema, TypedRun(schema, table, ops).0)
    decreases |ops|
  {
    if ops != [] {
      var next := TypedStep(schema, table, ops[0]).0;
      forall k | k in next ensures RowOf(schema, next[k]) {
        if ops[0].Write? && k in ops[0].items {
          EncodedIsRow(schema, EntryAfter(Decode(table), k, ops[0].items[k], ops[0].strategy));
        }
      }
      RunKeepsRows(schema, next, ops[1..]);
    }
  }

  lemma NormalizedSelects(schema: set<Field>, value: Value, filters: Filters)
    ensures Selects(schema, Normalized(schema, value), filters) == Selects(schema, value, filters)
  {
    forall i | 0 <= i < |filters|
      ensures PyEqual(Get(Normalized(schema, value), filters[i].0), filters[i].1)
           == PyEqual(Get(value, filters[i].0), filters[i].1)
      ensures LooksEqual(schema, Normalized(schema, value), filters[i].0, filters[i].1)
           == LooksEqual(schema, value, filters[i].0, filters[i].1)
    {
    }
  }

  function KeysOf(records: seq<(Key, Value)>): set<Key> {
    set r | r in records :: r.0
  }

  lemma {:induction false} SelectedMembers(schema: set<Field>, values: seq<(Key, Value)>, filters: Filters)
    ensures forall v :: v in Selected(schema, values, filters) <==> v in values && Selects(schema, v.1, filters)
  {
    if values != [] {
      var n := |values| - 1;
      SelectedMembers(schema, values[..n], filters);
      assert values == values[..n] + [values[n]];
    }
  }

  /** The keys of a plain store whose values match. */
  function Matching(s: Store, filters: Filters): set<Key> {
    set k | k in s && Matches(s[k], filters)
  }

  /** No value of the plain store passes only because of a container. */
  ghost predicate StoreHasNoLookalikes(schema: set<Field>, s: Store, filters: Filters) {
    forall k, j :: k in s && 0 <= j < |filters| && Selects(schema, s[k], filters) ==>
                     !LooksEqual(schema, s[k], filters[j].0, filters[j].1)
  }

  lemma RecordsOfShownTable(schema: set<Field>, table: Table, s: Store, rows: Rows, filters: Filters)
    requires Decode(table) == NormalizedStore(schema, s) && Lists(rows, table)
    ensures var records := Selected(schema, DecodeRows(rows), filters);
            && KeysOf(records) == (set k | k in s && Selects(schema, s[k], filters))
            && forall r :: r in records ==> r.0 in s && r.1 == Normalized(schema, s[r.0])
  {
    var values := DecodeRows(rows);
    var records := Selected(schema, values, filters);
    SelectedMembers(schema, values, filters);
    forall r | r in values ensures r.0 in s && r.1 == Normalized(schema, s[r.0]) {
      var i :| 0 <= i < |values| && values[i] == r;
      assert Decode(table)[r.0] == r.1;
    }
    forall k ensures k in KeysOf(records) <==> k in s && Selects(schema, s[k], filters) {
      if k in s {
        NormalizedSelects(schema, s[k], filters);
        assert k in NormalizedStore(schema, s) && k in Decode(table);
        assert Decode(table)[k] == Normalized(schema, s[k]);
        var i :| 0 <= i < |rows| && rows[i].0 == k;
        assert values[i] == (k, Normalized(schema, s[k]));
        assert values[i] in values;
      }
    }
  }

  /** The fast path answered with exactly these keys. */
  ghost predicate AnswersKeys(fast: Filtered, keys: set<Key>) {
    fast.Records? && KeysOf(fast.records) == keys
  }

  /** Filters and codec end to end: after any run of writes, deletes and clears on the typed table and on the
      plain store, the fast path can read the rows, whatever it returns are values of the plain store
      normalized, and it returns exactly the keys a scan of the plain store keeps if and only if no name is
      rejected, no filter is a list or dict, and no value passes only because of a container. */
  lemma FilteredRunIsFilteredStore(schema: set<Field>, table: Table, s: Store, ops: seq<Op>, rows: Rows,
                                   filters: Filters)
    requires Shows(schema, table, s) && AllRows(schema, table) && forall op :: op in ops ==> OpBindable(schema, op)
    requires Lists(rows, TypedRun(schema, table, ops).0)
    ensures forall i :: 0 <= i < |rows| ==> RowOf(schema, rows[i].1)
    ensures var (after, fast) := (PlainRun(s, ops).0, FastPath(schema, DecodeRows(rows), filters));
            && (fast.Records? ==>
                   forall r :: r in fast.records ==> r.0 in after && r.1 == Normalized(schema, after[r.0]))
            && (AnswersKeys(fast, Matching(after, filters))
                <==> Accepted(schema, filters) && ScalarFilters(filters)
                     && StoreHasNoLookalikes(schema, after, filters))
  {
    var t2, after := TypedRun(schema, table, ops).0, PlainRun(s, ops).0;
    RunKeepsRows(schema, table, ops);
    TypedStoreSimulatesPlain(schema, table, s, ops);
    RecordsOfShownTable(schema, t2, after, rows, filters);
    MatchingIsSelecting(schema, after, filters);
  }

  lemma MatchingIsSelecting(schema: set<Field>, s: Store, filters: Filters)
    ensures (set k | k in s && Selects(schema, s[k], filters)) == Matching(s, filters)
            <==> StoreHasNoLookalikes(schema, s, filters)
  {
    var selecting := set k | k in s && Selects(schema, s[k], filters);
    forall k | k in s && Matches(s[k], filters) ensures k in selecting {
    }
    if selecting == Matching(s, filters) {
      forall k | k in s && Selects(schema, s[k], filters) ensures Matches(s[k], filters) {
        assert k in selecting;
      }
      assert StoreHasNoLookalikes(schema, s, filters);
    }
  }

  // ---- values, one at a time ----

  datatype Yielded<T> = Yielded(values: seq<T>) | SizeRejected

  function ValuesOf<K, V>(rows: seq<(K, V)>): seq<V> {
    seq(|rows|, i requires 0 <= i < |rows| => rows[i].1)
  }

  /** Yields the values of every batch in turn: all of them once, in the order of the rows, whatever the
      batch size. */
  method Values<K, V>(rows: seq<(K, V)>, batchSize: int) returns (r: Yielded<V>)
    ensures r == if batchSize < 1 then SizeRejected else Yielded(ValuesOf(rows))
  {
    var paged := IterBatches(rows, batchSize);
    if paged == BadBatchSize {
      return SizeRejected;
    }
    ChunksAreWellCut(rows, batchSize);
    var batches := paged.batches;
    var values: seq<V> := [];
    for b := 0 to |batches|
      invariant values == ValuesOf(Flatten(batches[..b]))
    {
      FlattenAppend(batches[..b], batches[b]);
      assert batches[..b + 1] == batches[..b] + [batches[b]];
      assert ValuesOf(Flatten(batches[..b]) + batches[b]) == ValuesOf(Flatten(batches[..b])) + ValuesOf(batches[b]);
      values := values + ValuesOf(batches[b]);
    }
    assert batches[..|batches|] == batches;
    return Yielded(values);
  }
}
