/** Streaming statistics over the metadata of records, with a capped sample of the values of each key. */
module MetadataStatistics {

  type Key = string

  import opened Basics

  /** What the statistics see of a metadata value: which values it equals, its type's name, whether it is
      None or the empty string, and whether it is hashable. */
  datatype Value = Value(id: int, typeName: string, isEmpty: bool, hashable: bool)

  datatype Item = Item(key: Key, value: Value)

  /** The metadata of a record in the dictionary's order. */
  type Metadata = seq<Item>

  ghost predicate KeysDiffer(metadata: Metadata) {
    forall i, j :: 0 <= i < j < |metadata| ==> metadata[i].key != metadata[j].key
  }

  function Min(a: int, b: int): int {
    if a <= b then a else b
  }

  function Max(a: int, b: int): int {
    if a >= b then a else b
  }

  // ---- the stream each key sees ----

  function Items(records: seq<Metadata>): seq<Item> {
    if records == [] then [] else Items(records[..|records| - 1]) + records[|records| - 1]
  }

  function ValuesFor(items: seq<Item>, key: Key): (vs: seq<Value>)
    ensures |vs| <= |items|
  {
    if items == [] then []
    else
      var rest, last := items[..|items| - 1], items[|items| - 1];
      if last.key == key then ValuesFor(rest, key) + [last.value] else ValuesFor(rest, key)
  }

  function EmptyCount(vs: seq<Value>): (n: nat)
    ensures n <= |vs|
  {
    if vs == [] then 0
    else EmptyCount(vs[..|vs| - 1]) + if vs[|vs| - 1].isEmpty then 1 else 0
  }

  function TypeNames(vs: seq<Value>): set<string> {
    set i | 0 <= i < |vs| :: vs[i].typeName
  }

  function MissingCount(records: seq<Metadata>): nat {
    if records == [] then 0
    else MissingCount(records[..|records| - 1]) + if records[|records| - 1] == [] then 1 else 0
  }

  predicate Has(metadata: Metadata, key: Key) {
    exists i :: 0 <= i < |metadata| && metadata[i].key == key
  }

  function PresentIn(records: seq<Metadata>, key: Key): nat {
    if records == [] then 0
    else PresentIn(records[..|records| - 1], key) + if Has(records[|records| - 1], key) then 1 else 0
  }

  // ---- the capped sample ----

  datatype Sampled = Sampled(values: set<int>, truncated: bool)

  function AddValue(s: Sampled, v: Value, cap: Option<int>): Sampled {
    if s.truncated then s
    else if !v.hashable then s.(truncated := true)
    else if cap.Some? && |s.values| >= cap.value && v.id !in s.values then s.(truncated := true)
    else s.(values := s.values + {v.id})
  }

  function Sample(vs: seq<Value>, cap: Option<int>): Sampled {
    if vs == [] then Sampled({}, false) else AddValue(Sample(vs[..|vs| - 1], cap), vs[|vs| - 1], cap)
  }

  /** How many values come before the first unhashable one. */
  function HashableLength(vs: seq<Value>): (n: nat)
    ensures n <= |vs| && (forall i :: 0 <= i < n ==> vs[i].hashable) && (n < |vs| ==> !vs[n].hashable)
  {
    if vs == [] || !vs[0].hashable then 0 else 1 + HashableLength(vs[1..])
  }

  function Ids(vs: seq<Value>): set<int> {
    set i | 0 <= i < |vs| :: vs[i].id
  }

  /** Fewer than `cap` distinct values come before position i. */
  predicate WithinCap(vs: seq<Value>, i: nat, cap: Option<int>)
    requires i < |vs|
  {
    cap == None || |Ids(vs[..i])| < cap.value
  }

  /** The first `cap` distinct values: those met while fewer than `cap` distinct ones had been seen. */
  function FirstDistinct(vs: seq<Value>, cap: Option<int>): set<int> {
    set i | 0 <= i < |vs| && WithinCap(vs, i, cap) :: vs[i].id
  }

  lemma FirstDistinctGrows(vs: seq<Value>, v: Value, cap: Option<int>)
    ensures FirstDistinct(vs + [v], cap)
         == FirstDistinct(vs, cap) + if cap == None || |Ids(vs)| < cap.value then {v.id} else {}
    ensures Ids(vs + [v]) == Ids(vs) + {v.id}
  {
    var longer := vs + [v];
    assert longer[..|vs|] == vs;
    forall i | 0 <= i < |vs| ensures longer[i] == vs[i] && WithinCap(longer, i, cap) == WithinCap(vs, i, cap) {
      assert longer[..i] == vs[..i];
    }
    assert WithinCap(longer, |vs|, cap) == (cap == None || |Ids(vs)| < cap.value);
    assert longer[|vs|] == v;
  }

  lemma HashableLengthGrows(vs: seq<Value>, v: Value)
    ensures HashableLength(vs + [v])
         == if HashableLength(vs) < |vs| || !v.hashable then HashableLength(vs) else |vs| + 1
  {
    var longer, n, m := vs + [v], HashableLength(vs), HashableLength(vs + [v]);
    assert longer[|vs|] == v;
    if n < |vs| {
      assert longer[n] == vs[n];
    }
    if m < |vs| {
      assert longer[m] == vs[m];
    }
  }

  /** A sample against the first distinct values and all distinct values of what it has seen. */
  ghost predicate Fits(s: Sampled, first: set<int>, ids: set<int>, cap: Option<int>) {
    && s.values == first
    && (s.truncated <==> cap.Some? && |ids| > Max(cap.value, 0))
    && |s.values| == (if cap == None then |ids| else Min(Max(cap.value, 0), |ids|))
    && (!s.truncated ==> s.values == ids)
  }

  lemma AddFits(s: Sampled, first: set<int>, ids: set<int>, v: Value, cap: Option<int>)
    requires Fits(s, first, ids, cap) && v.hashable
    ensures Fits(AddValue(s, v, cap), first + (if cap == None || |ids| < cap.value then {v.id} else {}),
                 ids + {v.id}, cap)
  {
    if v.id in ids {
      assert ids + {v.id} == ids;
    } else {
      assert |ids + {v.id}| == |ids| + 1;
    }
  }

  /** The first `cap` distinct values, in stream order, before the first unhashable value; truncated exactly
      when more were seen or an unhashable one was. */
  ghost predicate IsSampleOf(s: Sampled, vs: seq<Value>, cap: Option<int>) {
    var p := vs[..HashableLength(vs)];
    && s.values == FirstDistinct(p, cap)
    && (s.truncated <==> |p| < |vs| || (cap.Some? && |Ids(p)| > Max(cap.value, 0)))
    && |s.values| == (if cap == None then |Ids(p)| else Min(Max(cap.value, 0), |Ids(p)|))
    && (!s.truncated ==> s.values == Ids(p))
  }

  lemma SampleStep(s: Sampled, vs: seq<Value>, v: Value, cap: Option<int>)
    requires IsSampleOf(s, vs, cap)
    ensures IsSampleOf(AddValue(s, v, cap), vs + [v], cap)
  {
    HashableLengthGrows(vs, v);
    var n, m := HashableLength(vs), HashableLength(vs + [v]);
    if m > |vs| {
      assert vs[..n] == vs && (vs + [v])[..m] == vs + [v];
      FirstDistinctGrows(vs, v, cap);
      AddFits(s, FirstDistinct(vs, cap), Ids(vs), v, cap);
    } else {
      assert (vs + [v])[..m] == vs[..n];
    }
  }

  lemma {:induction false} SampleIsFirstDistinct(vs: seq<Value>, cap: Option<int>)
    ensures IsSampleOf(Sample(vs, cap), vs, cap)
  {
    if vs != [] {
      var n := |vs| - 1;
      SampleIsFirstDistinct(vs[..n], cap);
      SampleStep(Sample(vs[..n], cap), vs[..n], vs[n], cap);
      assert vs == vs[..n] + [vs[n]];
    }
  }

  // ---- conservation ----

  function SumOver(keys: seq<Key>, counts: map<Key, nat>): nat {
    if keys == [] then 0
    else SumOver(keys[..|keys| - 1], counts) + if keys[|keys| - 1] in counts then counts[keys[|keys| - 1]] else 0
  }

  ghost predicate CountsOf(counts: map<Key, nat>, items: seq<Item>) {
    && (forall k :: k in counts ==> counts[k] == |ValuesFor(items, k)|)
    && (forall k :: k !in counts ==> ValuesFor(items, k) == [])
  }

  ghost predicate NoRepeats(keys: seq<Key>) {
    forall i, j :: 0 <= i < j < |keys| ==> keys[i] != keys[j]
  }

  function SumOfStreams(keys: seq<Key>, items: seq<Item>): nat {
    if keys == [] then 0 else SumOfStreams(keys[..|keys| - 1], items) + |ValuesFor(items, keys[|keys| - 1])|
  }

  lemma {:induction false} SumIsSumOfStreams(keys: seq<Key>, counts: map<Key, nat>, items: seq<Item>)
    requires CountsOf(counts, items)
    ensures SumOver(keys, counts) == SumOfStreams(keys, items)
  {
    if keys != [] {
      SumIsSumOfStreams(keys[..|keys| - 1], counts, items);
    }
  }

  /** One more item raises the sum by one if its key is among the keys. */
  lemma {:induction false} SumOfStreamsGrows(keys: seq<Key>, items: seq<Item>)
    requires NoRepeats(keys) && items != []
    ensures var (before, key) := (items[..|items| - 1], items[|items| - 1].key);
            SumOfStreams(keys, items) == SumOfStreams(keys, before) + if key in keys then 1 else 0
  {
    if keys != [] {
      var k, shorter := keys[|keys| - 1], keys[..|keys| - 1];
      SumOfStreamsGrows(shorter, items);
      assert keys == shorter + [k];
      if items[|items| - 1].key == k {
        assert k !in shorter;
      }
    }
  }

  lemma {:induction false} StreamsCoverItems(keys: seq<Key>, items: seq<Item>)
    requires NoRepeats(keys) && forall i :: 0 <= i < |items| ==> items[i].key in keys
    ensures SumOfStreams(keys, items) == |items|
  {
    if items == [] {
      SumOfNothing(keys);
    } else {
      SumOfStreamsGrows(keys, items);
      StreamsCoverItems(keys, items[..|items| - 1]);
    }
  }

  lemma {:induction false} SumOfNothing(keys: seq<Key>)
    ensures SumOfStreams(keys, []) == 0
  {
    if keys != [] {
      SumOfNothing(keys[..|keys| - 1]);
    }
  }

  lemma {:induction false} ItemIsInStream(items: seq<Item>, i: nat)
    requires i < |items|
    ensures ValuesFor(items, items[i].key) != []
  {
    if i < |items| - 1 {
      ItemIsInStream(items[..|items| - 1], i);
    }
  }

  /** In whatever order the keys are listed, their counts add up to all keys of all records. */
  lemma CountsAddUp(keys: seq<Key>, counts: map<Key, nat>, items: seq<Item>)
    requires CountsOf(counts, items) && NoRepeats(keys) && forall k :: k in keys <==> k in counts
    ensures SumOver(keys, counts) == |items|
  {
    forall i | 0 <= i < |items| ensures items[i].key in keys {
      ItemIsInStream(items, i);
    }
    SumIsSumOfStreams(keys, counts, items);
    StreamsCoverItems(keys, items);
  }

  lemma {:induction false} ValuesForConcat(a: seq<Item>, b: seq<Item>, key: Key)
    ensures ValuesFor(a + b, key) == ValuesFor(a, key) + ValuesFor(b, key)
  {
    if b == [] {
      assert a + b == a;
    } else {
      var shorter := b[..|b| - 1];
      assert (a + b)[..|a + b| - 1] == a + shorter;
      ValuesForConcat(a, shorter, key);
    }
  }

  lemma {:induction false} OneValuePerRecord(metadata: Metadata, key: Key)
    requires KeysDiffer(metadata)
    ensures |ValuesFor(metadata, key)| == if Has(metadata, key) then 1 else 0
  {
    if metadata != [] {
      var shorter, last := metadata[..|metadata| - 1], metadata[|metadata| - 1];
      OneValuePerRecord(shorter, key);
      if last.key == key {
        assert !Has(shorter, key);
        assert Has(metadata, key);
      } else if Has(shorter, key) {
        var i :| 0 <= i < |shorter| && shorter[i].key == key;
        assert metadata[i].key == key;
      } else {
        assert forall i :: 0 <= i < |shorter| ==> metadata[i] == shorter[i];
      }
    }
  }

  /** A key's count is the number of records that hold the key. */
  lemma {:induction false} CountIsPresence(records: seq<Metadata>, key: Key)
    requires forall i :: 0 <= i < |records| ==> KeysDiffer(records[i])
    ensures |ValuesFor(Items(records), key)| == PresentIn(records, key) <= |records|
  {
    if records != [] {
      var n := |records| - 1;
      CountIsPresence(records[..n], key);
      ValuesForConcat(Items(records[..n]), records[n], key);
      OneValuePerRecord(records[n], key);
    }
  }

  ghost predicate IsLeast(least: Option<nat>, records: seq<Metadata>) {
    && (least == None <==> records == [])
    && (least.Some? ==> (forall i :: 0 <= i < |records| ==> least.value <= |records[i]|)
                        && exists i :: 0 <= i < |records| && |records[i]| == least.value)
  }

  ghost predicate IsMost(most: Option<nat>, records: seq<Metadata>) {
    && (most == None <==> records == [])
    && (most.Some? ==> (forall i :: 0 <= i < |records| ==> |records[i]| <= most.value)
                       && exists i :: 0 <= i < |records| && |records[i]| == most.value)
  }

  lemma {:induction false} TotalIsBetween(records: seq<Metadata>, least: nat, most: nat)
    requires forall i :: 0 <= i < |records| ==> least <= |records[i]| <= most
    ensures least * |records| <= |Items(records)| <= most * |records|
  {
    if records != [] {
      var n := |records| - 1;
      assert least <= |records[n]| <= most;
      TotalIsBetween(records[..n], least, most);
      OneMore(least, n);
      OneMore(most, n);
    }
  }

  lemma OneMore(a: nat, n: nat)
    ensures a * (n + 1) == a * n + a
  {
  }

  function Mean(records: seq<Metadata>): real {
    if records == [] then 0.0 else |Items(records)| as real / |records| as real
  }

  /** The mean number of keys lies between the fewest and the most. */
  lemma MeanIsBetween(records: seq<Metadata>, least: Option<nat>, most: Option<nat>)
    requires IsLeast(least, records) && IsMost(most, records) && records != []
    ensures least.value as real <= Mean(records) <= most.value as real
  {
    TotalIsBetween(records, least.value, most.value);
    QuotientIsBetween(least.value, |Items(records)|, most.value, |records|);
  }

  lemma QuotientIsBetween(low: nat, total: nat, high: nat, count: nat)
    requires count > 0 && low * count <= total <= high * count
    ensures low as real <= total as real / count as real <= high as real
  {
    var q := total as real / count as real;
    QuotientTimes(total as real, count as real);
    ProductAsReal(low, count);
    ProductAsReal(high, count);
    Cancel(low as real, q, count as real);
    Cancel(q, high as real, count as real);
  }

  lemma QuotientTimes(a: real, c: real)
    requires c > 0.0
    ensures (a / c) * c == a
  {
  }

  lemma {:induction false} ProductAsReal(a: nat, n: nat)
    ensures (a * n) as real == a as real * n as real
  {
    if n > 0 {
      ProductAsReal(a, n - 1);
      assert a * n == a * (n - 1) + a;
      assert a as real * n as real == a as real * (n - 1) as real + a as real;
    }
  }

  lemma Cancel(a: real, b: real, c: real)
    requires c > 0.0 && a * c <= b * c
    ensures a <= b
  {
    assert (b - a) * c >= 0.0;
  }

  // ---- the statistics object ----

  datatype KeyReport = KeyReport(present: nat, missing: int, types: set<string>, emptyCount: nat,
                                 sample: set<int>, truncated: bool)

  datatype Report = Report(count: nat, missing: nat, avgKeys: real, minKeys: Option<nat>, maxKeys: Option<nat>,
                           distinctKeys: nat, perKey: map<Key, KeyReport>)

  function ReportFor(records: seq<Metadata>, cap: Option<int>, key: Key): KeyReport {
    var vs := ValuesFor(Items(records), key);
    KeyReport(|vs|, |records| - |vs|, TypeNames(vs), EmptyCount(vs), Sample(vs, cap).values, Sample(vs, cap).truncated)
  }

  ghost predicate IsReport(report: Report, records: seq<Metadata>, cap: Option<int>) {
    && report.count == |records| && report.missing == MissingCount(records)
    && IsLeast(report.minKeys, records) && IsMost(report.maxKeys, records)
    && report.avgKeys == Mean(records)
    && report.distinctKeys == |report.perKey|
    && (forall k :: k in report.perKey <==> ValuesFor(Items(records), k) != [])
    && (forall k :: k in report.perKey ==> report.perKey[k] == ReportFor(records, cap, k))
  }

  /** What a report promises: the counts of the keys, however listed, add up to the keys of all records;
      each is the number of records with the key; the mean is between the extremes. */
  lemma ReportIsConsistent(report: Report, records: seq<Metadata>, cap: Option<int>, keys: seq<Key>)
    requires IsReport(report, records, cap)
    requires forall i :: 0 <= i < |records| ==> KeysDiffer(records[i])
    requires NoRepeats(keys) && forall k :: k in keys <==> k in report.perKey
    ensures SumOver(keys, map k | k in report.perKey :: report.perKey[k].present) == |Items(records)|
    ensures forall k :: k in report.perKey ==>
              var r := report.perKey[k];
              r.present == PresentIn(records, k) && r.missing == |records| - PresentIn(records, k) >= 0
              && r.emptyCount <= r.present
    ensures records != [] ==> report.minKeys.value as real <= report.avgKeys <= report.maxKeys.value as real
  {
    CountsAddUp(keys, map k | k in report.perKey :: report.perKey[k].present, Items(records));
    forall k | k in report.perKey ensures report.perKey[k].present == PresentIn(records, k) <= |records| {
      CountIsPresence(records, k);
    }
    if records != [] {
      MeanIsBetween(records, report.minKeys, report.maxKeys);
    }
  }

  function Get<V>(m: map<Key, V>, key: Key, default: V): V {
    if key in m then m[key] else default
  }

  class MetadataStats {
    const cap: Option<int>
    var count: nat
    var missing: nat
    var total: nat
    var minKeys: Option<nat>
    var maxKeys: Option<nat>
    var keyCounts: map<Key, nat>
    var keyNoneCounts: map<Key, nat>
    var keyTypes: map<Key, set<string>>
    var keyValues: map<Key, set<int>>
    var keyValuesTruncated: map<Key, bool>
    ghost var records: seq<Metadata>

    /** The dictionaries at `key` are what the key's stream of values gives. */
    ghost predicate Tracks(key: Key, vs: seq<Value>)
      reads this`keyCounts, this`keyNoneCounts, this`keyTypes, this`keyValues, this`keyValuesTruncated
    {
      && (key in keyCounts <==> vs != [])
      && Get(keyCounts, key, 0) == |vs|
      && Get(keyNoneCounts, key, 0) == EmptyCount(vs)
      && Get(keyTypes, key, {}) == TypeNames(vs)
      && SampledAt(key) == Sample(vs, cap)
    }

    ghost predicate TracksIn(items: seq<Item>, key: Key)
      reads this`keyCounts, this`keyNoneCounts, this`keyTypes, this`keyValues, this`keyValuesTruncated
    {
      Tracks(key, ValuesFor(items, key))
    }

    ghost predicate TracksAll(items: seq<Item>)
      reads this`keyCounts, this`keyNoneCounts, this`keyTypes, this`keyValues, this`keyValuesTruncated
    {
      forall key :: TracksIn(items, key)
    }

    ghost predicate Valid()
      reads this
    {
      && CountersFit(records, count, missing, total, minKeys, maxKeys)
      && TracksAll(Items(records))
    }

    constructor (cap: Option<int>)
      ensures Valid() && records == [] && this.cap == cap
    {
      this.cap := cap;
      count, missing, total, minKeys, maxKeys := 0, 0, 0, None, None;
      keyCounts, keyNoneCounts, keyTypes, keyValues, keyValuesTruncated := map[], map[], map[], map[], map[];
      records := [];
    }

    method Update(metadata: Metadata)
      requires Valid()
      modifies this
      ensures Valid() && records == old(records) + [metadata]
    {
      ghost var seen := Items(records);
      ghost var longer := CountRecord(metadata);
      AddItems(metadata, seen);
      records := longer;
    }

    method CountRecord(metadata: Metadata) returns (ghost longer: seq<Metadata>)
      requires CountersFit(records, count, missing, total, minKeys, maxKeys)
      modifies this`count, this`missing, this`total, this`minKeys, this`maxKeys
      ensures longer == records + [metadata] && Items(longer) == Items(records) + metadata
      ensures CountersFit(longer, count, missing, total, minKeys, maxKeys)
    {
      longer := records + [metadata];
      CountersFitOneMore(records, metadata, count, missing, total, minKeys, maxKeys);
      Tally(metadata);
    }

    method Tally(metadata: Metadata)
      modifies this`count, this`missing, this`total, this`minKeys, this`maxKeys
      ensures count == old(count) + 1 && total == old(total) + |metadata|
      ensures missing == old(missing) + if metadata == [] then 1 else 0
      ensures minKeys == Fewer(old(minKeys), |metadata|)
      ensures maxKeys == More(old(maxKeys), |metadata|)
    {
      if metadata == [] {
        missing := missing + 1;
      }
      var nKeys := |metadata|;
      count := count + 1;
      total := total + nKeys;
      if minKeys == None || nKeys < minKeys.value {
        minKeys := Some(nKeys);
      }
      if maxKeys == None || nKeys > maxKeys.value {
        maxKeys := Some(nKeys);
      }
    }

    method AddItems(metadata: Metadata, ghost seen: seq<Item>)
      requires TracksAll(seen)
      modifies this`keyCounts, this`keyNoneCounts, this`keyTypes, this`keyValues, this`keyValuesTruncated
      ensures TracksAll(seen + metadata)
    {
      assert seen + metadata[..0] == seen;
      for i := 0 to |metadata|
        invariant TracksAll(seen + metadata[..i])
      {
        assert seen + metadata[..i + 1] == seen + metadata[..i] + [metadata[i]];
        AddItem(metadata[i], seen + metadata[..i]);
      }
      assert metadata[..|metadata|] == metadata;
    }

    /** One pass of the loop over a record's items. */
    method AddItem(item: Item, ghost items: seq<Item>)
      requires TracksAll(items)
      modifies this`keyCounts, this`keyNoneCounts, this`keyTypes, this`keyValues, this`keyValuesTruncated
      ensures TracksAll(items + [item])
    {
      ghost var vs := ValuesFor(items, item.key);
      assert TracksIn(items, item.key);
      Count(item.key, item.value);
      SampleValue(item.key, item.value);
      StreamGrows(vs, item.value, cap);
      assert Tracks(item.key, vs + [item.value]);
      ghost var longer := items + [item];
      forall k ensures TracksIn(longer, k) {
        ValuesForGrows(items, item, k);
        if k != item.key {
          assert old(TracksIn(items, k));
          assert ValuesFor(longer, k) == ValuesFor(items, k);
        }
      }
    }

    method Count(key: Key, value: Value)
      modifies this`keyCounts, this`keyNoneCounts, this`keyTypes
      ensures keyCounts == old(keyCounts)[key := Get(old(keyCounts), key, 0) + 1]
      ensures keyTypes == old(keyTypes)[key := Get(old(keyTypes), key, {}) + {value.typeName}]
      ensures Get(keyNoneCounts, key, 0) == Get(old(keyNoneCounts), key, 0) + if value.isEmpty then 1 else 0
      ensures forall k :: k != key ==> Get(keyNoneCounts, k, 0) == Get(old(keyNoneCounts), k, 0)
    {
      keyCounts := keyCounts[key := Get(keyCounts, key, 0) + 1];
      keyTypes := keyTypes[key := Get(keyTypes, key, {}) + {value.typeName}];
      if value.isEmpty {
        keyNoneCounts := keyNoneCounts[key := Get(keyNoneCounts, key, 0) + 1];
      }
    }

    function SampledAt(key: Key): Sampled
      reads this`keyValues, this`keyValuesTruncated
    {
      Sampled(Get(keyValues, key, {}), Get(keyValuesTruncated, key, false))
    }

    method SampleValue(key: Key, value: Value)
      modifies this`keyValues, this`keyValuesTruncated
      ensures SampledAt(key) == AddValue(old(SampledAt(key)), value, cap)
      ensures forall k :: k != key ==> SampledAt(k) == old(SampledAt(k))
    {
      if Get(keyValuesTruncated, key, false) {
        return;
      }
      var values := Get(keyValues, key, {});
      keyValues := keyValues[key := values];
      if !value.hashable {
        keyValuesTruncated := keyValuesTruncated[key := true];
      } else if cap.Some? && |values| >= cap.value && value.id !in values {
        keyValuesTruncated := keyValuesTruncated[key := true];
      } else {
        keyValues := keyValues[key := values + {value.id}];
      }
    }

    /** The report reads the state and changes nothing. */
    method ToDict() returns (report: Report)
      requires Valid()
      ensures IsReport(report, records, cap)
    {
      var avg := if count > 0 then total as real / count as real else 0.0;
      var perKey := map k | k in keyCounts ::
        KeyReport(keyCounts[k], count - keyCounts[k], Get(keyTypes, k, {}), Get(keyNoneCounts, k, 0),
                  Get(keyValues, k, {}), Get(keyValuesTruncated, k, false));
      report := Report(count, missing, avg, minKeys, maxKeys, |keyCounts|, perKey);
      assert perKey.Keys == keyCounts.Keys;
      forall k ensures k in perKey <==> ValuesFor(Items(records), k) != [] {
        assert TracksIn(Items(records), k);
      }
      forall k | k in perKey ensures perKey[k] == ReportFor(records, cap, k) {
        assert TracksIn(Items(records), k);
      }
    }
  }

  lemma StreamGrows(vs: seq<Value>, v: Value, cap: Option<int>)
    ensures TypeNames(vs + [v]) == TypeNames(vs) + {v.typeName}
    ensures EmptyCount(vs + [v]) == EmptyCount(vs) + (if v.isEmpty then 1 else 0)
    ensures Sample(vs + [v], cap) == AddValue(Sample(vs, cap), v, cap)
  {
    var longer := vs + [v];
    assert longer[|vs|] == v && longer[..|vs|] == vs;
    forall i | 0 <= i < |vs| ensures longer[i] == vs[i] {
    }
  }

  lemma ValuesForGrows(items: seq<Item>, item: Item, key: Key)
    ensures ValuesFor(items + [item], key) == ValuesFor(items, key) + if item.key == key then [item.value] else []
  {
    assert (items + [item])[..|items|] == items;
  }

  ghost predicate CountersFit(records: seq<Metadata>, count: nat, missing: nat, total: nat,
                              least: Option<nat>, most: Option<nat>) {
    && count == |records| && missing == MissingCount(records) && total == |Items(records)|
    && IsLeast(least, records) && IsMost(most, records)
  }

  function Fewer(least: Option<nat>, n: nat): Option<nat> {
    Some(if least == None || n < least.value then n else least.value)
  }

  function More(most: Option<nat>, n: nat): Option<nat> {
    Some(if most == None || n > most.value then n else most.value)
  }

  lemma CountersFitOneMore(records: seq<Metadata>, metadata: Metadata, count: nat, missing: nat, total: nat,
                           least: Option<nat>, most: Option<nat>)
    requires CountersFit(records, count, missing, total, least, most)
    ensures CountersFit(records + [metadata], count + 1, missing + (if metadata == [] then 1 else 0),
                        total + |metadata|, Fewer(least, |metadata|), More(most, |metadata|))
    ensures Items(records + [metadata]) == Items(records) + metadata
  {
    var longer := records + [metadata];
    assert longer[..|records|] == records && longer[|records|] == metadata;
    forall i | 0 <= i < |records| ensures longer[i] == records[i] {
    }
  }

  method ComputeMetadataStats(records: seq<Metadata>, cap: Option<int>) returns (report: Report)
    ensures IsReport(report, records, cap)
  {
    var stats := new MetadataStats(cap);
    for i := 0 to |records|
      invariant stats.Valid() && stats.records == records[..i]
    {
      stats.Update(records[i]);
      assert records[..i + 1] == records[..i] + [records[i]];
    }
    assert records[..|records|] == records;
    report := stats.ToDict();
  }
}
