/** Near-duplicate grouping: MinHash signatures, one bucket pass per band, union-find, ordered groups. */
module NearDedup {
  import opened Components
  import opened UnionFinds

  /** `metadata` lists the items in sorted key order, each value by its string form. */
  datatype Record<Id> = Record(id: Id, metadata: seq<(string, string)>)

  datatype Outcome<T> = Ok(value: T) | ValueError | ZeroDivisionError | IndexError

  /** A seeded hash of a token; nothing is assumed about it but that it is not negative. */
  type Hash = (string, nat) -> nat

  function Token(item: (string, string)): string {
    item.0 + "=" + item.1
  }

  function MinHash(metadata: seq<(string, string)>, hash: Hash, seed: nat): (m: nat)
    requires metadata != []
    ensures forall item :: item in metadata ==> m <= hash(Token(item), seed)
    ensures exists k :: 0 <= k < |metadata| && m == hash(Token(metadata[k]), seed)
  {
    var first := hash(Token(metadata[0]), seed);
    if |metadata| == 1 then first
    else
      var rest := MinHash(metadata[1..], hash, seed);
      if first <= rest then first else rest
  }

  /** All positions are -1 when there is no metadata. */
  function Signature(metadata: seq<(string, string)>, numHashes: int, hash: Hash): seq<int> {
    if numHashes <= 0 then []
    else seq(numHashes, seed requires 0 <= seed => if metadata == [] then -1 else MinHash(metadata, hash, seed))
  }

  /** The string "key=value" of an item that has the least hash of all items for this seed. */
  ghost predicate IsLeastToken(t: string, metadata: seq<(string, string)>, hash: Hash, seed: nat) {
    && (exists p :: p in metadata && t == p.0 + "=" + p.1)
    && forall p :: p in metadata ==> hash(t, seed) <= hash(p.0 + "=" + p.1, seed)
  }

  /** What a signature holds, position by position. */
  lemma SignatureAt(metadata: seq<(string, string)>, numHashes: int, hash: Hash, seed: nat)
    requires seed < numHashes
    ensures |Signature(metadata, numHashes, hash)| == numHashes
    ensures metadata == [] ==> Signature(metadata, numHashes, hash)[seed] == -1
    ensures metadata != [] ==> exists t ::
              IsLeastToken(t, metadata, hash, seed) && Signature(metadata, numHashes, hash)[seed] == hash(t, seed)
  {
    if metadata != [] {
      var k :| 0 <= k < |metadata| && MinHash(metadata, hash, seed) == hash(Token(metadata[k]), seed);
      var p := metadata[k];
      assert p in metadata && Token(p) == p.0 + "=" + p.1;
      forall q | q in metadata ensures hash(Token(p), seed) <= hash(q.0 + "=" + q.1, seed) {
        assert MinHash(metadata, hash, seed) <= hash(Token(q), seed) && Token(q) == q.0 + "=" + q.1;
      }
      assert IsLeastToken(Token(p), metadata, hash, seed);
    }
  }

  function Tokens(metadata: seq<(string, string)>): set<string> {
    set item | item in metadata :: Token(item)
  }

  /** A signature depends on the set of tokens alone, not on their order or multiplicity. */
  lemma SignatureOfTokenSet(a: seq<(string, string)>, b: seq<(string, string)>, numHashes: int, hash: Hash)
    requires Tokens(a) == Tokens(b)
    ensures Signature(a, numHashes, hash) == Signature(b, numHashes, hash)
  {
    assert a == [] <==> b == [] by {
      if a != [] { assert Token(a[0]) in Tokens(a); }
      if b != [] { assert Token(b[0]) in Tokens(b); }
    }
    if a != [] {
      forall seed: nat | seed < numHashes
        ensures MinHash(a, hash, seed) == MinHash(b, hash, seed)
      {
        MinHashAtMost(a, b, hash, seed);
        MinHashAtMost(b, a, hash, seed);
      }
    }
  }

  lemma MinHashAtMost(a: seq<(string, string)>, b: seq<(string, string)>, hash: Hash, seed: nat)
    requires a != [] && b != [] && Tokens(b) <= Tokens(a)
    ensures MinHash(a, hash, seed) <= MinHash(b, hash, seed)
  {
    var k :| 0 <= k < |b| && MinHash(b, hash, seed) == hash(Token(b[k]), seed);
    var y := b[k];
    assert Token(y) in Tokens(b);
    var x :| x in a && Token(x) == Token(y);
  }

  /** Positions x and y agree on the whole band and it is not the sentinel. */
  ghost predicate SharesBand(sigs: seq<seq<int>>, start: nat, end: nat, x: nat, y: nat) {
    && x < |sigs| && y < |sigs|
    && start < end <= |sigs[x]| && end <= |sigs[y]|
    && sigs[x][start] != -1 && sigs[x][start..end] == sigs[y][start..end]
  }

  ghost function BandEdges(sigs: seq<seq<int>>, start: nat, end: nat, upto: nat): Edges {
    set x: nat, y: nat | x < upto && y < upto && SharesBand(sigs, start, end, x, y) :: (x, y)
  }

  ghost predicate SharesNthBand(sigs: seq<seq<int>>, rows: nat, b: nat, x: nat, y: nat) {
    SharesBand(sigs, b * rows, b * rows + rows, x, y)
  }

  ghost function SharedEdges(sigs: seq<seq<int>>, rows: nat, bands: nat): Edges {
    set x: nat, y: nat, b: nat | x < |sigs| && y < |sigs| && b < bands
                                 && SharesNthBand(sigs, rows, b, x, y) :: (x, y)
  }

  lemma SharesBandBack(sigs: seq<seq<int>>, start: nat, end: nat, x: nat, y: nat)
    requires SharesBand(sigs, start, end, x, y)
    ensures SharesBand(sigs, start, end, y, x)
  {
    assert sigs[x][start] == sigs[x][start..end][0] == sigs[y][start..end][0] == sigs[y][start];
  }

  lemma SharesBandChain(sigs: seq<seq<int>>, start: nat, end: nat, x: nat, y: nat, z: nat)
    requires SharesBand(sigs, start, end, x, y) && SharesBand(sigs, start, end, y, z)
    ensures SharesBand(sigs, start, end, x, z)
  {
  }

  lemma BandEdgesUndirected(sigs: seq<seq<int>>, start: nat, end: nat, upto: nat)
    ensures Undirected(BandEdges(sigs, start, end, upto))
  {
    forall x, y | (x, y) in BandEdges(sigs, start, end, upto)
      ensures (y, x) in BandEdges(sigs, start, end, upto)
    {
      SharesBandBack(sigs, start, end, x, y);
    }
  }

  lemma SharedEdgesUndirected(sigs: seq<seq<int>>, rows: nat, bands: nat)
    ensures Undirected(SharedEdges(sigs, rows, bands))
  {
    forall x, y | (x, y) in SharedEdges(sigs, rows, bands)
      ensures (y, x) in SharedEdges(sigs, rows, bands)
    {
      var b: nat :| b < bands && SharesNthBand(sigs, rows, b, x, y);
      SharesBandBack(sigs, b * rows, b * rows + rows, x, y);
      assert SharesNthBand(sigs, rows, b, y, x);
    }
  }

  lemma SharedEdgesStep(sigs: seq<seq<int>>, rows: nat, bands: nat)
    ensures SharedEdges(sigs, rows, bands + 1)
         == SharedEdges(sigs, rows, bands) + BandEdges(sigs, bands * rows, bands * rows + rows, |sigs|)
  {
    var more, edges, last := SharedEdges(sigs, rows, bands + 1), SharedEdges(sigs, rows, bands),
                             BandEdges(sigs, bands * rows, bands * rows + rows, |sigs|);
    forall x, y | (x, y) in last ensures (x, y) in more {
      assert SharesNthBand(sigs, rows, bands, x, y);
    }
    forall x, y | (x, y) in more ensures (x, y) in edges + last {
      var b: nat :| b < bands + 1 && SharesNthBand(sigs, rows, b, x, y);
      assert b < bands || b == bands;
    }
  }

  /** What the bucket pass has recorded about the first `upto` signatures: the first position of each
      band value seen. */
  ghost predicate BucketsFor(buckets: map<seq<int>, nat>, sigs: seq<seq<int>>, start: nat, end: nat, upto: nat) {
    && (forall key :: key in buckets ==>
          buckets[key] < upto <= |sigs| && SharesBand(sigs, start, end, buckets[key], buckets[key])
          && sigs[buckets[key]][start..end] == key)
    && (forall y: nat :: y < upto && SharesBand(sigs, start, end, y, y) ==> sigs[y][start..end] in buckets)
  }

  lemma FirstOfItsBand(rep: seq<nat>, edges: Edges, sigs: seq<seq<int>>, start: nat, end: nat, i: nat,
                       buckets: map<seq<int>, nat>)
    requires i < |sigs| == |rep| && start < end <= |sigs[i]| && Undirected(edges) && Within(edges, |rep|)
    requires BucketsFor(buckets, sigs, start, end, i)
    requires sigs[i][start] == -1 || sigs[i][start..end] !in buckets
    requires Represents(rep, edges + BandEdges(sigs, start, end, i))
    ensures Represents(rep, edges + BandEdges(sigs, start, end, i + 1))
  {
    var before, after := edges + BandEdges(sigs, start, end, i), edges + BandEdges(sigs, start, end, i + 1);
    forall x, y | (x, y) in after ensures x < |rep| && y < |rep| && rep[x] == rep[y] {
      if (x, y) in before {
        ConnectedStep(before, x, y);
      } else {
        SharesBandBack(sigs, start, end, x, y);
        assert x == i || y == i;
        SharesBandChain(sigs, start, end, x, y, x);
        SharesBandChain(sigs, start, end, y, x, y);
      }
    }
    BandEdgesUndirected(sigs, start, end, i + 1);
    MergeRepresents(rep, rep, before, after, i, i);
  }

  lemma LaterInItsBand(rep: seq<nat>, merged: seq<nat>, edges: Edges, sigs: seq<seq<int>>, start: nat, end: nat,
                       i: nat, buckets: map<seq<int>, nat>)
    requires i < |sigs| == |rep| && start < end <= |sigs[i]| && Undirected(edges) && Within(edges, |rep|)
    requires BucketsFor(buckets, sigs, start, end, i)
    requires sigs[i][start] != -1 && sigs[i][start..end] in buckets
    requires merged == Merged(rep, i, buckets[sigs[i][start..end]])
    requires Represents(rep, edges + BandEdges(sigs, start, end, i))
    ensures Represents(merged, edges + BandEdges(sigs, start, end, i + 1))
  {
    var j := buckets[sigs[i][start..end]];
    var before, after := edges + BandEdges(sigs, start, end, i), edges + BandEdges(sigs, start, end, i + 1);
    assert SharesBand(sigs, start, end, i, j);
    forall x, y | (x, y) in after ensures x < |rep| && y < |rep| && merged[x] == merged[y] {
      if (x, y) in before {
        ConnectedStep(before, x, y);
      } else {
        SharesBandBack(sigs, start, end, x, y);
        SharesAsBucket(rep, edges, sigs, start, end, i, j, x, y);
      }
    }
    BandEdgesUndirected(sigs, start, end, i + 1);
    MergeRepresents(rep, merged, before, after, i, j);
  }

  /** Whoever shares the band with `i` already has the label of `i` or of the bucket's first position. */
  lemma SharesAsBucket(rep: seq<nat>, edges: Edges, sigs: seq<seq<int>>, start: nat, end: nat, i: nat, j: nat,
                       x: nat, y: nat)
    requires j < i < |sigs| == |rep| && SharesBand(sigs, start, end, i, j)
    requires x <= i && y <= i && (x == i || y == i) && SharesBand(sigs, start, end, x, y)
    requires Represents(rep, edges + BandEdges(sigs, start, end, i))
    ensures rep[x] == rep[i] || rep[x] == rep[j]
    ensures rep[y] == rep[i] || rep[y] == rep[j]
  {
    var z := if x == i then y else x;
    if z != i {
      SharesBandBack(sigs, start, end, x, y);
      SharesBandChain(sigs, start, end, z, i, j);
      ConnectedStep(edges + BandEdges(sigs, start, end, i), z, j);
    }
  }

  /** After the pass, classes are the components of the old edges plus "identical band" edges. */
  method UnionBand(sigs: seq<seq<int>>, start: nat, end: nat, uf: UnionFind, ghost edges: Edges)
    requires uf.Valid() && uf.parent.Length == |sigs|
    requires start < end && forall k :: 0 <= k < |sigs| ==> end <= |sigs[k]|
    requires Undirected(edges) && Within(edges, |sigs|) && Represents(uf.root, edges)
    modifies uf, uf.parent
    ensures uf.Valid()
    ensures Represents(uf.root, edges + BandEdges(sigs, start, end, |sigs|))
  {
    var buckets: map<seq<int>, nat> := map[];
    assert edges + BandEdges(sigs, start, end, 0) == edges;
    for i := 0 to |sigs|
      invariant uf.Valid()
      invariant BucketsFor(buckets, sigs, start, end, i)
      invariant Represents(uf.root, edges + BandEdges(sigs, start, end, i))
    {
      ghost var rep := uf.root;
      var signature := sigs[i];
      if signature[start] == -1 {
        FirstOfItsBand(rep, edges, sigs, start, end, i, buckets);
        continue;
      }
      var bandKey := signature[start..end];
      if bandKey in buckets {
        uf.Union(i, buckets[bandKey]);
        LaterInItsBand(rep, uf.root, edges, sigs, start, end, i, buckets);
      } else {
        FirstOfItsBand(rep, edges, sigs, start, end, i, buckets);
        buckets := buckets[bandKey := i];
      }
    }
  }

  /** The members of one class by label, in encounter order. */
  ghost function ClassOf(rep: seq<nat>, r: nat, upto: nat): (c: seq<nat>)
    requires upto <= |rep|
    ensures forall x :: x in c ==> x < upto
  {
    if upto == 0 then []
    else ClassOf(rep, r, upto - 1) + if rep[upto - 1] == r then [upto - 1] else []
  }

  /** The labels in order of first appearance. */
  ghost function RootsSeen(rep: seq<nat>, upto: nat): (order: seq<nat>)
    requires upto <= |rep|
  {
    if upto == 0 then [] else Noted(RootsSeen(rep, upto - 1), rep[upto - 1])
  }

  function Noted(order: seq<nat>, r: nat): seq<nat> {
    if r in order then order else order + [r]
  }

  lemma {:induction false} RootSeen(rep: seq<nat>, upto: nat, r: nat)
    requires upto <= |rep|
    ensures r in RootsSeen(rep, upto) <==> exists j :: 0 <= j < upto && rep[j] == r
  {
    if upto > 0 {
      RootSeen(rep, upto - 1, r);
    }
  }

  /** The classes of two or more with the first k labels. */
  ghost function ClassesOf(rep: seq<nat>, order: seq<nat>, k: nat): seq<seq<nat>>
    requires k <= |order|
  {
    if k == 0 then []
    else
      var c := ClassOf(rep, order[k - 1], |rep|);
      ClassesOf(rep, order, k - 1) + if |c| > 1 then [c] else []
  }

  lemma {:induction false} ClassesOfLonger(rep: seq<nat>, order: seq<nat>, r: nat, k: nat)
    requires k <= |order|
    ensures ClassesOf(rep, order + [r], k) == ClassesOf(rep, order, k)
  {
    if k > 0 {
      ClassesOfLonger(rep, order, r, k - 1);
    }
  }

  lemma {:induction false} ClassIsComponent(rep: seq<nat>, edges: Edges, i: nat, upto: nat)
    requires Represents(rep, edges) && i < |rep| && upto <= |rep|
    ensures ClassOf(rep, rep[i], upto) == ComponentOf(edges, i, upto)
  {
    if upto > 0 {
      ClassIsComponent(rep, edges, i, upto - 1);
    }
  }

  lemma FirstIsNewRoot(rep: seq<nat>, edges: Edges, i: nat)
    requires Represents(rep, edges) && i < |rep|
    ensures IsFirst(edges, i) <==> rep[i] !in RootsSeen(rep, i)
  {
    RootSeen(rep, i, rep[i]);
    if rep[i] in RootsSeen(rep, i) {
      var j: nat :| j < i && rep[j] == rep[i];
      assert Connected(edges, i, j);
    } else {
      forall j: nat | j < i ensures !Connected(edges, i, j) {
        assert rep[j] != rep[i];
      }
    }
  }

  /** The class of position i as a group, if it is met for the first time and has two members. */
  ghost function GroupAt(rep: seq<nat>, i: nat): seq<seq<nat>>
    requires i < |rep|
  {
    var c := ClassOf(rep, rep[i], |rep|);
    if rep[i] !in RootsSeen(rep, i) && |c| > 1 then [c] else []
  }

  ghost function GroupsUpTo(rep: seq<nat>, upto: nat): seq<seq<nat>>
    requires upto <= |rep|
  {
    if upto == 0 then [] else GroupsUpTo(rep, upto - 1) + GroupAt(rep, upto - 1)
  }

  lemma OneMoreClass(rep: seq<nat>, i: nat, before: seq<nat>)
    requires i < |rep| && before == RootsSeen(rep, i)
    ensures ClassesOf(rep, Noted(before, rep[i]), |Noted(before, rep[i])|)
         == ClassesOf(rep, before, |before|) + GroupAt(rep, i)
  {
    if rep[i] !in before {
      ClassesOfLonger(rep, before, rep[i], |before|);
      OneClassMore(rep, before + [rep[i]], |before|);
    }
  }

  lemma OneClassMore(rep: seq<nat>, order: seq<nat>, k: nat)
    requires k < |order|
    ensures var c := ClassOf(rep, order[k], |rep|);
            ClassesOf(rep, order, k + 1) == ClassesOf(rep, order, k) + (if |c| > 1 then [c] else [])
  {
  }

  lemma {:induction false} ClassesOfSeen(rep: seq<nat>, upto: nat) returns (order: seq<nat>)
    requires upto <= |rep|
    ensures order == RootsSeen(rep, upto) && ClassesOf(rep, order, |order|) == GroupsUpTo(rep, upto)
  {
    if upto == 0 {
      order := [];
    } else {
      var before := ClassesOfSeen(rep, upto - 1);
      OneMoreClass(rep, upto - 1, before);
      order := Noted(before, rep[upto - 1]);
    }
  }

  lemma LabelsGiveSameGroup(rep: seq<nat>, edges: Edges, i: nat)
    requires Represents(rep, edges) && i < |rep|
    ensures GroupAt(rep, i) == GroupFrom(edges, |rep|, i)
  {
    ClassIsComponent(rep, edges, i, |rep|);
    FirstIsNewRoot(rep, edges, i);
  }

  lemma {:induction false} SameGroups(rep: seq<nat>, edges: Edges, upto: nat)
    requires upto <= |rep| && forall i {:trigger GroupAt(rep, i)} ::
               0 <= i < upto ==> GroupAt(rep, i) == GroupFrom(edges, |rep|, i)
    ensures GroupsUpTo(rep, upto) == Groups(edges, |rep|, upto)
  {
    if upto > 0 {
      SameGroups(rep, edges, upto - 1);
    }
  }

  lemma ClassesAreGroups(rep: seq<nat>, edges: Edges)
    requires Represents(rep, edges)
    ensures ClassesOf(rep, RootsSeen(rep, |rep|), |RootsSeen(rep, |rep|)|) == Groups(edges, |rep|, |rep|)
  {
    forall i | 0 <= i < |rep| ensures GroupAt(rep, i) == GroupFrom(edges, |rep|, i) {
      LabelsGiveSameGroup(rep, edges, i);
    }
    var order := ClassesOfSeen(rep, |rep|);
    SameGroups(rep, edges, |rep|);
  }

  ghost function IdsAt<Id>(records: seq<Record<Id>>, at: seq<nat>): seq<Id>
    requires forall x :: x in at ==> x < |records|
  {
    seq(|at|, k requires 0 <= k < |at| => assert at[k] in at; records[at[k]].id)
  }

  ghost predicate InRange(groups: seq<seq<nat>>, n: nat) {
    forall g, x :: g in groups && x in g ==> x < n
  }

  ghost function IdGroups<Id>(records: seq<Record<Id>>, groups: seq<seq<nat>>): seq<seq<Id>>
    requires InRange(groups, |records|)
  {
    seq(|groups|, k requires 0 <= k < |groups| => assert groups[k] in groups; IdsAt(records, groups[k]))
  }

  lemma {:induction false} ClassesInRange(rep: seq<nat>, order: seq<nat>, k: nat)
    requires k <= |order|
    ensures InRange(ClassesOf(rep, order, k), |rep|)
  {
    if k > 0 {
      ClassesInRange(rep, order, k - 1);
    }
  }

  function Members(order: seq<nat>): set<nat> {
    set r | r in order
  }

  /** What the grouping dict holds after `upto` records: per representative, its ids so far. */
  ghost predicate Collected<Id>(records: seq<Record<Id>>, rep: seq<nat>, groups: map<nat, seq<Id>>, upto: nat)
    requires upto <= |rep| == |records|
  {
    && groups.Keys == Members(RootsSeen(rep, upto))
    && forall r :: r in groups ==> groups[r] == IdsAt(records, ClassOf(rep, r, upto))
  }

  lemma IdsAtMore<Id>(records: seq<Record<Id>>, at: seq<nat>, x: nat)
    requires x < |records| && forall y :: y in at ==> y < |records|
    ensures forall y :: y in at + [x] ==> y < |records|
    ensures IdsAt(records, at + [x]) == IdsAt(records, at) + [records[x].id]
  {
  }

  /** The dict after one more record. */
  function Appended<Id>(groups: map<nat, seq<Id>>, r: nat, id: Id): map<nat, seq<Id>> {
    groups[r := (if r in groups then groups[r] else []) + [id]]
  }

  lemma CollectKeys<Id>(records: seq<Record<Id>>, rep: seq<nat>, groups: map<nat, seq<Id>>, i: nat)
    requires i < |rep| == |records| && Collected(records, rep, groups, i)
    ensures RootsSeen(rep, i + 1) == RootsSeen(rep, i) + if rep[i] in groups then [] else [rep[i]]
    ensures Appended(groups, rep[i], records[i].id).Keys == Members(RootsSeen(rep, i + 1))
  {
  }

  lemma CollectClass<Id>(records: seq<Record<Id>>, rep: seq<nat>, groups: map<nat, seq<Id>>, i: nat)
    requires i < |rep| == |records| && Collected(records, rep, groups, i)
    ensures Appended(groups, rep[i], records[i].id)[rep[i]] == IdsAt(records, ClassOf(rep, rep[i], i + 1))
  {
    var r := rep[i];
    if r !in groups {
      RootSeen(rep, i, r);
      AbsentClass(rep, r, i);
    }
    IdsAtMore(records, ClassOf(rep, r, i), i);
  }

  lemma CollectStep<Id>(records: seq<Record<Id>>, rep: seq<nat>, groups: map<nat, seq<Id>>, i: nat)
    requires i < |rep| == |records| && Collected(records, rep, groups, i)
    ensures Collected(records, rep, Appended(groups, rep[i], records[i].id), i + 1)
    ensures RootsSeen(rep, i + 1) == RootsSeen(rep, i) + if rep[i] in groups then [] else [rep[i]]
  {
    CollectKeys(records, rep, groups, i);
    CollectClass(records, rep, groups, i);
    forall q | q in groups && q != rep[i] ensures groups[q] == IdsAt(records, ClassOf(rep, q, i + 1)) {
      assert ClassOf(rep, q, i + 1) == ClassOf(rep, q, i);
    }
  }

  /** Collects ids per representative, in encounter order; a dict remembers the order of its keys. */
  method CollectByRoot<Id>(records: seq<Record<Id>>, uf: UnionFind)
    returns (groups: map<nat, seq<Id>>, order: seq<nat>)
    requires uf.Valid() && uf.parent.Length == |records|
    modifies uf.parent
    ensures uf.Valid()
    ensures order == RootsSeen(uf.root, |records|) && Collected(records, uf.root, groups, |records|)
  {
    groups, order := map[], [];
    for i := 0 to |records|
      invariant uf.Valid()
      invariant order == RootsSeen(uf.root, i) && Collected(records, uf.root, groups, i)
    {
      groups, order := CollectOne(records, uf, groups, order, i);
    }
  }

  /** One pass of that loop. */
  method CollectOne<Id>(records: seq<Record<Id>>, uf: UnionFind, groups: map<nat, seq<Id>>, order: seq<nat>, i: nat)
    returns (groups': map<nat, seq<Id>>, order': seq<nat>)
    requires uf.Valid() && uf.parent.Length == |records| && i < |records|
    requires order == RootsSeen(uf.root, i) && Collected(records, uf.root, groups, i)
    modifies uf.parent
    ensures uf.Valid()
    ensures order' == RootsSeen(uf.root, i + 1) && Collected(records, uf.root, groups', i + 1)
  {
    CollectStep(records, uf.root, groups, i);
    var r := uf.Find(i);
    order' := if r in groups then order else order + [r];
    groups' := Appended(groups, r, records[i].id);
  }

  /** Keeps the collected groups of two or more. */
  method CollectGroups<Id>(records: seq<Record<Id>>, uf: UnionFind, ghost edges: Edges)
    returns (result: seq<seq<Id>>)
    requires uf.Valid() && uf.parent.Length == |records| && Represents(uf.root, edges)
    modifies uf.parent
    ensures InRange(Groups(edges, |records|, |records|), |records|)
    ensures result == IdGroups(records, Groups(edges, |records|, |records|))
  {
    var groups, order := CollectByRoot(records, uf);
    result := [];
    ghost var rep := uf.root;
    for k := 0 to |order|
      invariant InRange(ClassesOf(rep, order, k), |records|)
      invariant result == IdGroups(records, ClassesOf(rep, order, k))
    {
      ClassesInRange(rep, order, k + 1);
      assert order[k] in order;
      var group := groups[order[k]];
      if |group| > 1 {
        result := result + [group];
      }
    }
    ClassesAreGroups(rep, edges);
  }

  lemma {:induction false} AbsentClass(rep: seq<nat>, r: nat, upto: nat)
    requires upto <= |rep| && forall j :: 0 <= j < upto ==> rep[j] != r
    ensures ClassOf(rep, r, upto) == []
  {
    if upto > 0 {
      AbsentClass(rep, r, upto - 1);
    }
  }

  ghost function Signatures<Id>(records: seq<Record<Id>>, numHashes: int, hash: Hash): seq<seq<int>> {
    seq(|records|, i requires 0 <= i < |records| => Signature(records[i].metadata, numHashes, hash))
  }

  /** The groups are exactly the connected components of "shares an identical band", for every list of
      records; the remaining clauses say when the call fails or has nothing to do instead. */
  method FindNearDuplicateRecordIds<Id>(records: seq<Record<Id>>, numHashes: int, numBands: int, hash: Hash)
    returns (out: Outcome<seq<seq<Id>>>)
    ensures numBands == 0 ==> out == ZeroDivisionError
    ensures numBands != 0 && numHashes % numBands != 0 ==> out == ValueError
    ensures numBands < 0 && numHashes % numBands == 0 ==> out == Ok([])
    ensures numBands > 0 && numHashes % numBands == 0 && numHashes <= 0 ==>
              out == if records == [] then Ok([]) else IndexError
    ensures numBands > 0 && numHashes % numBands == 0 && numHashes > 0 ==>
              var sigs := Signatures(records, numHashes, hash);
              var groups := Groups(SharedEdges(sigs, numHashes / numBands, numBands), |records|, |records|);
              InRange(groups, |records|) && out == Ok(IdGroups(records, groups))
  {
    if numBands == 0 {
      return ZeroDivisionError;
    }
    if numHashes % numBands != 0 {
      return ValueError;
    }
    var signatures := ComputeSignatures(records, numHashes, hash);
    if numBands > 0 && numHashes <= 0 && records != [] {
      // The first band reads position 0 of an empty signature.
      return IndexError;
    }
    var uf := new UnionFind(|records|);
    NoEdges(|records|);
    ghost var edges: Edges := {};
    if numBands > 0 && numHashes > 0 {
      var rowsPerBand := numHashes / numBands;
      edges := SharedEdges(signatures, rowsPerBand, numBands);
      UnionBands(signatures, rowsPerBand, numBands, uf);
    } else {
      // No band to process, or no record to process.
      NoGroups(|records|, |records|);
    }
    var groups := CollectGroups(records, uf, edges);
    return Ok(groups);
  }

  method ComputeSignatures<Id>(records: seq<Record<Id>>, numHashes: int, hash: Hash) returns (signatures: seq<seq<int>>)
    ensures signatures == Signatures(records, numHashes, hash)
  {
    signatures := [];
    for i := 0 to |records|
      invariant |signatures| == i
      invariant forall k :: 0 <= k < i ==> signatures[k] == Signature(records[k].metadata, numHashes, hash)
    {
      signatures := signatures + [Signature(records[i].metadata, numHashes, hash)];
    }
    assert signatures == Signatures(records, numHashes, hash);
  }

  lemma NoEdges(n: nat)
    ensures Represents(seq(n, i => i), {})
  {
    var rep := seq(n, i => i);
    forall x, y | 0 <= x < n && 0 <= y < n
      ensures rep[x] == rep[y] <==> Connected({}, x, y)
    {
      ConnectedSelf({}, x);
      if Connected({}, x, y) {
        var chain :| IsChain({}, chain, x, y);
        ChainKeepsLabel(rep, {}, chain, x, y);
      }
    }
  }

  lemma {:induction false} NoGroups(n: nat, upto: nat)
    requires upto <= n
    ensures Groups({}, n, upto) == []
  {
    if upto > 0 {
      NoGroups(n, upto - 1);
      IsolatedComponent({}, upto - 1, n);
    }
  }

  /** An element without edges to others is alone in its component. */
  lemma {:induction false} IsolatedComponent(edges: Edges, i: nat, upto: nat)
    requires Undirected(edges) && forall y :: (i, y) in edges ==> y == i
    ensures ComponentOf(edges, i, upto) == if i < upto then [i] else []
  {
    if upto > 0 {
      IsolatedComponent(edges, i, upto - 1);
      var x: nat := upto - 1;
      ConnectedSelf(edges, i);
      if Connected(edges, i, x) {
        var chain :| IsChain(edges, chain, i, x);
        ChainStays(edges, chain, i, x);
      }
    }
  }

  lemma {:induction false} ChainStays(edges: Edges, chain: seq<nat>, i: nat, x: nat)
    requires IsChain(edges, chain, i, x) && forall y :: (i, y) in edges ==> y == i
    ensures x == i
    decreases |chain|
  {
    if |chain| > 1 {
      assert (chain[0], chain[1]) in edges;
      ChainStays(edges, chain[1..], i, x);
    }
  }

  lemma BandFits(band: nat, rows: nat, bands: nat)
    requires band < bands
    ensures band * rows + rows <= rows * bands
  {
    assert rows * (band + 1) <= rows * bands;
  }

  method UnionBands(signatures: seq<seq<int>>, rows: nat, bands: nat, uf: UnionFind)
    requires uf.Valid() && uf.parent.Length == |signatures| && uf.root == seq(|signatures|, i => i)
    requires rows > 0 && forall k :: 0 <= k < |signatures| ==> |signatures[k]| == rows * bands
    modifies uf, uf.parent
    ensures uf.Valid() && Represents(uf.root, SharedEdges(signatures, rows, bands))
  {
    NoEdges(|signatures|);
    assert SharedEdges(signatures, rows, 0) == {};
    for band := 0 to bands
      invariant uf.Valid()
      invariant Represents(uf.root, SharedEdges(signatures, rows, band))
    {
      var start := band * rows;
      BandFits(band, rows, bands);
      SharedEdgesUndirected(signatures, rows, band);
      UnionBand(signatures, start, start + rows, uf, SharedEdges(signatures, rows, band));
      SharedEdgesStep(signatures, rows, band);
    }
  }

  lemma NoMetadataNoEdge<Id>(records: seq<Record<Id>>, numHashes: int, rows: nat, bands: nat, hash: Hash, i: nat)
    requires i < |records| && records[i].metadata == []
    ensures forall y :: (i, y) !in SharedEdges(Signatures(records, numHashes, hash), rows, bands)
  {
    assert forall k :: 0 <= k < numHashes ==> Signature(records[i].metadata, numHashes, hash)[k] == -1;
  }

  lemma IsolatedFromGroups(edges: Edges, n: nat, i: nat)
    requires Undirected(edges) && forall y :: (i, y) !in edges
    ensures forall a :: 0 <= a < |Groups(edges, n, n)| ==> i !in Groups(edges, n, n)[a]
  {
    GroupsAreTheComponents(edges, n);
    forall a | 0 <= a < |Groups(edges, n, n)| ensures i !in Groups(edges, n, n)[a] {
      IsolatedFromGroup(edges, n, Groups(edges, n, n)[a], i);
    }
  }

  /** Records without metadata are in no group. */
  lemma EmptyMetadataIsUngrouped<Id>(records: seq<Record<Id>>, numHashes: int, rows: nat, bands: nat,
                                     hash: Hash, i: nat)
    requires i < |records| && records[i].metadata == []
    ensures var edges, n := SharedEdges(Signatures(records, numHashes, hash), rows, bands), |records|;
            forall a :: 0 <= a < |Groups(edges, n, n)| ==> i !in Groups(edges, n, n)[a]
  {
    NoMetadataNoEdge(records, numHashes, rows, bands, hash, i);
    SharedEdgesUndirected(Signatures(records, numHashes, hash), rows, bands);
    IsolatedFromGroups(SharedEdges(Signatures(records, numHashes, hash), rows, bands), |records|, i);
  }

  lemma IsolatedFromGroup(edges: Edges, n: nat, g: seq<nat>, i: nat)
    requires IsGroupOf(edges, n, g) && forall y :: (i, y) !in edges
    ensures i !in g
  {
    if i in g {
      var y := if g[0] == i then g[1] else g[0];
      assert g[0] < g[1] && y in g && y < n;
      var chain :| IsChain(edges, chain, i, y);
      ChainStays(edges, chain, i, y);
    }
  }

  lemma EqualMetadataSharesBand<Id>(records: seq<Record<Id>>, numHashes: int, rows: nat, bands: nat,
                                    hash: Hash, i: nat, j: nat)
    requires i < |records| && j < |records| && rows > 0 && bands > 0 && numHashes == rows * bands
    requires records[i].metadata != [] && Tokens(records[i].metadata) == Tokens(records[j].metadata)
    ensures (i, j) in SharedEdges(Signatures(records, numHashes, hash), rows, bands)
  {
    var sigs := Signatures(records, numHashes, hash);
    BandFits(0, rows, bands);
    SignatureOfTokenSet(records[i].metadata, records[j].metadata, numHashes, hash);
    assert sigs[i] == sigs[j] && |sigs[i]| == numHashes && sigs[i][0] >= 0;
    assert SharesNthBand(sigs, rows, 0, i, j);
  }

  /** Records with the same non-empty token set always end up in a common group. */
  lemma EqualMetadataIsGrouped<Id>(records: seq<Record<Id>>, numHashes: int, rows: nat, bands: nat,
                                   hash: Hash, i: nat, j: nat)
    requires i < |records| && j < |records| && i != j && rows > 0 && bands > 0 && numHashes == rows * bands
    requires records[i].metadata != [] && Tokens(records[i].metadata) == Tokens(records[j].metadata)
    ensures var edges, n := SharedEdges(Signatures(records, numHashes, hash), rows, bands), |records|;
            exists g :: g in Groups(edges, n, n) && i in g && j in g
  {
    var edges := SharedEdges(Signatures(records, numHashes, hash), rows, bands);
    EqualMetadataSharesBand(records, numHashes, rows, bands, hash, i, j);
    ConnectedStep(edges, i, j);
    SharedEdgesUndirected(Signatures(records, numHashes, hash), rows, bands);
    GroupsAreTheComponents(edges, |records|);
  }

  // ---- what an identical band means ----

  ghost predicate Injective(hash: Hash) {
    forall a, b, seed :: hash(a, seed) == hash(b, seed) ==> a == b
  }

  /** For this seed both records have the same string "key=value" at the least hash. */
  ghost predicate SameLeastToken(a: seq<(string, string)>, b: seq<(string, string)>, hash: Hash, seed: nat) {
    exists t :: IsLeastToken(t, a, hash, seed) && IsLeastToken(t, b, hash, seed)
  }

  lemma EqualPositionExactlyWhen(a: seq<(string, string)>, b: seq<(string, string)>, numHashes: int, hash: Hash,
                                 seed: nat)
    requires Injective(hash) && seed < numHashes && a != []
    ensures |Signature(a, numHashes, hash)| == |Signature(b, numHashes, hash)| == numHashes
    ensures Signature(a, numHashes, hash)[seed] == Signature(b, numHashes, hash)[seed]
            <==> SameLeastToken(a, b, hash, seed)
  {
    SignatureAt(a, numHashes, hash, seed);
    SignatureAt(b, numHashes, hash, seed);
    var t :| IsLeastToken(t, a, hash, seed) && Signature(a, numHashes, hash)[seed] == hash(t, seed);
    if b == [] {
      assert !SameLeastToken(a, b, hash, seed);
    } else {
      var u :| IsLeastToken(u, b, hash, seed) && Signature(b, numHashes, hash)[seed] == hash(u, seed);
      if v :| IsLeastToken(v, a, hash, seed) && IsLeastToken(v, b, hash, seed) {
        LeastHashIsUnique(t, v, a, hash, seed);
        LeastHashIsUnique(u, v, b, hash, seed);
      }
    }
  }

  lemma LeastHashIsUnique(t: string, u: string, metadata: seq<(string, string)>, hash: Hash, seed: nat)
    requires IsLeastToken(t, metadata, hash, seed) && IsLeastToken(u, metadata, hash, seed)
    ensures hash(t, seed) == hash(u, seed)
  {
  }

  /** For hashes without collisions: two records share a band exactly when for some band, at each of its seeds,
      the least "key=value" string of both is the same. */
  lemma SharesBandExactlyWhen<Id>(records: seq<Record<Id>>, numHashes: int, rows: nat, bands: nat, hash: Hash,
                                  x: nat, y: nat)
    requires Injective(hash) && x < |records| && y < |records| && rows > 0 && numHashes == rows * bands
    ensures (x, y) in SharedEdges(Signatures(records, numHashes, hash), rows, bands)
            <==> exists b: nat :: b < bands && SameBand(records[x].metadata, records[y].metadata, rows, b, hash)
  {
    var sigs := Signatures(records, numHashes, hash);
    forall b: nat | b < bands
      ensures SharesNthBand(sigs, rows, b, x, y) <==> SameBand(records[x].metadata, records[y].metadata, rows, b, hash)
    {
      SharesNthBandExactlyWhen(records, numHashes, rows, bands, b, hash, x, y);
    }
  }

  ghost predicate SameBand(a: seq<(string, string)>, b: seq<(string, string)>, rows: nat, band: nat, hash: Hash) {
    forall seed: nat :: band * rows <= seed < band * rows + rows ==> SameLeastToken(a, b, hash, seed)
  }

  lemma SharesNthBandExactlyWhen<Id>(records: seq<Record<Id>>, numHashes: int, rows: nat, bands: nat, b: nat,
                                     hash: Hash, x: nat, y: nat)
    requires Injective(hash) && x < |records| && y < |records| && rows > 0 && b < bands && numHashes == rows * bands
    ensures SharesNthBand(Signatures(records, numHashes, hash), rows, b, x, y)
            <==> SameBand(records[x].metadata, records[y].metadata, rows, b, hash)
  {
    BandFits(b, rows, bands);
    BandOfSignatures(records[x].metadata, records[y].metadata, numHashes, b * rows, b * rows + rows, hash);
  }

  lemma BandOfSignatures(a: seq<(string, string)>, c: seq<(string, string)>, numHashes: int, start: nat, end: nat,
                         hash: Hash)
    requires Injective(hash) && start < end <= numHashes
    ensures |Signature(a, numHashes, hash)| == |Signature(c, numHashes, hash)| == numHashes
    ensures var (s, t) := (Signature(a, numHashes, hash), Signature(c, numHashes, hash));
            s[start] != -1 && s[start..end] == t[start..end]
            <==> forall seed: nat :: start <= seed < end ==> SameLeastToken(a, c, hash, seed)
  {
    var s, t := Signature(a, numHashes, hash), Signature(c, numHashes, hash);
    if a == [] {
      SignatureAt(a, numHashes, hash, start);
      assert !SameLeastToken(a, c, hash, start);
    } else {
      SignatureAt(a, numHashes, hash, start);
      forall seed: nat | start <= seed < end ensures s[seed] == t[seed] <==> SameLeastToken(a, c, hash, seed) {
        EqualPositionExactlyWhen(a, c, numHashes, hash, seed);
      }
      assert s[start..end] == t[start..end] <==> forall seed: nat :: start <= seed < end ==> s[seed] == t[seed] by {
        SameSlices(s, t, start, end);
      }
    }
  }

  lemma SameSlices(s: seq<int>, t: seq<int>, start: nat, end: nat)
    requires start <= end <= |s| == |t|
    ensures s[start..end] == t[start..end] <==> forall i: nat :: start <= i < end ==> s[i] == t[i]
  {
    if s[start..end] == t[start..end] {
      forall i: nat | start <= i < end ensures s[i] == t[i] {
        assert s[i] == s[start..end][i - start] && t[i] == t[start..end][i - start];
      }
    }
  }

  ghost predicate NoCommonItem(a: seq<(string, string)>, b: seq<(string, string)>) {
    forall p, q :: p in a && q in b ==> p.0 + "=" + p.1 != q.0 + "=" + q.1
  }

  lemma NotSameBand(a: seq<(string, string)>, b: seq<(string, string)>, rows: nat, band: nat, hash: Hash)
    requires NoCommonItem(a, b) && rows > 0
    ensures !SameBand(a, b, rows, band, hash)
  {
    var seed: nat := band * rows;
    assert !SameLeastToken(a, b, hash, seed);
    assert seed < band * rows + rows;
  }

  lemma NoBandNoEdge<Id>(records: seq<Record<Id>>, numHashes: int, rows: nat, bands: nat, hash: Hash, x: nat, y: nat)
    requires Injective(hash) && x < |records| && y < |records| && rows > 0 && numHashes == rows * bands
    requires forall b: nat :: !SameBand(records[x].metadata, records[y].metadata, rows, b, hash)
    ensures (x, y) !in SharedEdges(Signatures(records, numHashes, hash), rows, bands)
  {
    SharesBandExactlyWhen(records, numHashes, rows, bands, hash, x, y);
  }

  /** Records without a common item are linked by no band. */
  lemma NoCommonItemNoEdge<Id>(records: seq<Record<Id>>, numHashes: int, rows: nat, bands: nat, hash: Hash,
                               x: nat, y: nat)
    requires Injective(hash) && x < |records| && y < |records| && rows > 0 && numHashes == rows * bands
    requires NoCommonItem(records[x].metadata, records[y].metadata)
    ensures (x, y) !in SharedEdges(Signatures(records, numHashes, hash), rows, bands)
  {
    forall b: nat ensures !SameBand(records[x].metadata, records[y].metadata, rows, b, hash) {
      NotSameBand(records[x].metadata, records[y].metadata, rows, b, hash);
    }
    NoBandNoEdge(records, numHashes, rows, bands, hash, x, y);
  }
}
