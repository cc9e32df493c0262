/** Small things several modules need. */
module Basics {

  datatype Option<+T> = None | Some(value: T)

  lemma {:induction false} SubsetIsSmaller<T>(a: set<T>, b: set<T>)
    requires a <= b
    ensures |a| <= |b| && (a < b ==> |a| < |b|)
  {
    if x :| x in a {
      SubsetIsSmaller(a - {x}, b - {x});
    }
  }

  function Sum(xs: seq<nat>): nat {
    if xs == [] then 0 else xs[0] + Sum(xs[1..])
  }

  lemma {:induction false} SumFalls(xs: seq<nat>, i: nat, x: nat)
    requires i < |xs| && x < xs[i]
    ensures Sum(xs[i := x]) < Sum(xs)
  {
    if i == 0 {
      assert xs[i := x][1..] == xs[1..];
    } else {
      SumFalls(xs[1..], i - 1, x);
      assert xs[i := x][1..] == xs[1..][i - 1 := x];
    }
  }
}
