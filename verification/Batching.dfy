/** Cutting a sequence into consecutive batches. */
module Batching {

  function Chunks<T>(s: seq<T>, size: nat): seq<seq<T>>
    requires size > 0
  {
    if s == [] then []
    else if |s| <= size then [s]
    else [s[..size]] + Chunks(s[size..], size)
  }

  function Flatten<T>(batches: seq<seq<T>>): seq<T> {
    if batches == [] then [] else batches[0] + Flatten(batches[1..])
  }

  /** Batches hold 1 to `size` elements and all but the last are full. */
  ghost predicate WellCut<T>(batches: seq<seq<T>>, size: nat) {
    && (forall b :: 0 <= b < |batches| ==> 0 < |batches[b]| <= size)
    && (forall b :: 0 <= b < |batches| - 1 ==> |batches[b]| == size)
  }

  /** Nothing is lost, repeated or reordered. */
  lemma {:induction false} ChunksAreWellCut<T>(s: seq<T>, size: nat)
    requires size > 0
    ensures Flatten(Chunks(s, size)) == s && WellCut(Chunks(s, size), size)
  {
    if |s| > size {
      ChunksAreWellCut(s[size..], size);
      assert Chunks(s, size)[0] == s[..size] && Chunks(s, size)[1..] == Chunks(s[size..], size);
    } else if s != [] {
      assert Flatten([s]) == s + Flatten([]) == s;
    }
  }

  lemma {:induction false} FlattenAppend<T>(batches: seq<seq<T>>, last: seq<T>)
    ensures Flatten(batches + [last]) == Flatten(batches) + last
  {
    if batches == [] {
      assert Flatten([last]) == last + Flatten([]) == last;
    } else {
      FlattenAppend(batches[1..], last);
      assert (batches + [last])[1..] == batches[1..] + [last];
    }
  }

  /** There is only one way to cut well, so the cut is determined by these properties. */
  lemma {:induction false} WellCutIsChunks<T>(s: seq<T>, batches: seq<seq<T>>, size: nat)
    requires size > 0 && WellCut(batches, size) && Flatten(batches) == s
    ensures batches == Chunks(s, size)
    decreases |batches|
  {
    if batches != [] {
      var first, rest := batches[0], batches[1..];
      WellCutIsChunks(Flatten(rest), rest, size);
      assert batches == [first] + rest;
      if rest == [] {
        assert s == first;
      } else {
        assert |batches| > 1 && |first| == size;
        assert rest[0] != [] && |Flatten(rest)| > 0;
        assert s[..size] == first && s[size..] == Flatten(rest);
      }
    }
  }
}
