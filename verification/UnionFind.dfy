/** The disjoint-set structure behind near-duplicate grouping: a parent list without ranks,
    searched with path halving. */
module UnionFinds {

  /** `root` names the representative of every element, `level` strictly decreases along parent links.
      The parent list is not monotone in the index, so acyclicity needs `level`. */
  ghost predicate Forest(p: seq<nat>, root: seq<nat>, level: seq<nat>) {
    && |p| == |root| == |level|
    && forall i {:trigger p[i]} :: 0 <= i < |p| ==> IsParent(p[i], i, root, level)
  }

  /** `above` may be the parent of `i`. */
  ghost predicate IsParent(above: nat, i: nat, root: seq<nat>, level: seq<nat>)
    requires i < |root| == |level|
  {
    && above < |root| && root[i] < |root|
    && root[above] == root[i] && root[root[i]] == root[i]
    && (above == i <==> root[i] == i)
    && (above != i ==> level[above] < level[i])
  }

  /** Follow `k` parent links from `i`. */
  ghost function Climb(p: seq<nat>, i: nat, k: nat): nat
    requires i < |p| && forall x :: 0 <= x < |p| ==> p[x] < |p|
    ensures Climb(p, i, k) < |p|
    decreases k
  {
    if k == 0 then i else Climb(p, p[i], k - 1)
  }

  /** The bookkeeping is about the real list: climbing from `i` reaches the fixed point `root[i]`. */
  lemma {:induction false} ClimbReachesRoot(p: seq<nat>, root: seq<nat>, level: seq<nat>, i: nat)
    requires Forest(p, root, level) && i < |p|
    ensures root[i] < |p| && p[root[i]] == root[i]
    ensures exists k: nat :: k <= level[i] && Climb(p, i, k) == root[i]
    decreases level[i]
  {
    assert p[i] < |p|;
    assert p[root[i]] == root[i];
    if p[i] == i {
      assert Climb(p, i, 0) == root[i];
    } else {
      ClimbReachesRoot(p, root, level, p[i]);
      var k: nat :| k <= level[p[i]] && Climb(p, p[i], k) == root[p[i]];
      assert Climb(p, i, k + 1) == root[i];
    }
  }

  /** No other fixed point can be reached, so `root[i]` is what any climb that stops must return. */
  lemma {:induction false} ClimbStopsOnlyAtRoot(p: seq<nat>, root: seq<nat>, level: seq<nat>, i: nat, k: nat)
    requires Forest(p, root, level) && i < |p|
    requires p[Climb(p, i, k)] == Climb(p, i, k)
    ensures Climb(p, i, k) == root[i]
    decreases k
  {
    assert p[i] < |p|;
    if k > 0 {
      ClimbStopsOnlyAtRoot(p, root, level, p[i], k - 1);
    }
  }

  /** The partition after merging the classes of `i` and `j`; the representative of `i` survives. */
  ghost function Merged(root: seq<nat>, i: nat, j: nat): (r: seq<nat>)
    requires i < |root| && j < |root|
  {
    seq(|root|, x requires 0 <= x < |root| => if root[x] == root[j] then root[i] else root[x])
  }

  /** Levels after the merge: the absorbed class moves above the tree it now hangs under. */
  ghost function Raised(root: seq<nat>, level: seq<nat>, ri: nat, rj: nat): (r: seq<nat>)
    requires |root| == |level| && ri < |root|
  {
    seq(|root|, x requires 0 <= x < |root| => if root[x] == rj then level[x] + level[ri] + 1 else level[x])
  }

  lemma LinkKeepsForest(p: seq<nat>, root: seq<nat>, level: seq<nat>, ri: nat, rj: nat)
    requires Forest(p, root, level)
    requires ri < |p| && rj < |p| && root[ri] == ri && root[rj] == rj && ri != rj
    ensures Forest(p[rj := ri], Merged(root, ri, rj), Raised(root, level, ri, rj))
  {
    var q := p[rj := ri];
    forall x | 0 <= x < |q| ensures IsParent(q[x], x, Merged(root, ri, rj), Raised(root, level, ri, rj)) {
      assert IsParent(p[x], x, root, level);
    }
  }

  lemma HalvingKeepsForest(p: seq<nat>, root: seq<nat>, level: seq<nat>, i: nat)
    requires Forest(p, root, level) && i < |p|
    ensures Forest(p[i := p[p[i]]], root, level)
    ensures p[i] != i ==> level[p[p[i]]] < level[i]
  {
    assert IsParent(p[i], i, root, level) && IsParent(p[p[i]], p[i], root, level);
    assert IsParent(p[p[i]], i, root, level);
    var q := p[i := p[p[i]]];
    forall x | 0 <= x < |q| ensures IsParent(q[x], x, root, level) {
      assert x == i || q[x] == p[x];
    }
  }

  /** What path halving may have done to the list: entries moved from parent to grandparent. */
  ghost predicate Shortened(p: seq<nat>, q: seq<nat>)
    requires forall x :: 0 <= x < |p| ==> p[x] < |p|
  {
    |q| == |p| && forall x :: 0 <= x < |p| ==> q[x] == p[x] || q[x] == p[p[x]]
  }

  class UnionFind {
    const parent: array<nat>
    ghost var root: seq<nat>
    ghost var level: seq<nat>

    ghost predicate Valid()
      reads this, parent
    {
      Forest(parent[..], root, level)
    }

    constructor (size: nat)
      ensures Valid() && fresh(parent) && parent.Length == size
      ensures root == seq(size, i => i)
    {
      parent := new nat[size](i => i);
      root := seq(size, i => i);
      level := seq(size, i => 0);
      new;
      assert parent[..] == seq(size, i => i);
    }

    /** Returns the representative and leaves every element's representative as it was. Path halving
        rewrites entries, but only ever from the old parent to the old grandparent. */
    method Find(i: nat) returns (r: nat)
      requires Valid() && i < parent.Length
      modifies parent
      ensures Valid()
      ensures r == root[i]
      ensures parent[i] == old(parent[parent[i]])
      ensures Shortened(old(parent[..]), parent[..])
    {
      ghost var start := parent[..];
      r := i;
      while parent[r] != r
        invariant r < parent.Length && Valid() && root[r] == root[i]
        invariant if r == i then parent[i] == start[i]
                  else level[r] < level[i] && parent[i] == start[start[i]]
        invariant forall x :: 0 <= x < |start| && level[x] <= level[r] ==> parent[x] == start[x]
        invariant Shortened(start, parent[..])
        decreases level[r]
      {
        HalveEntry(r);
        r := parent[r];
      }
    }

    /** One step of the search loop: point `x` at its grandparent. */
    method HalveEntry(x: nat)
      requires Valid() && x < parent.Length && parent[x] != x
      modifies parent
      ensures Valid()
      ensures parent[..] == old(parent[..][x := parent[parent[x]]])
      ensures level[parent[x]] < level[x] && root[parent[x]] == root[x]
      ensures old(level[parent[x]] < level[x])
    {
      HalvingKeepsForest(parent[..], root, level, x);
      ghost var halved := parent[..][x := parent[parent[x]]];
      parent[x] := parent[parent[x]];
      assert parent[..] == halved;
    }

    /** Merges exactly the two classes. */
    method Union(i: nat, j: nat)
      requires Valid() && i < parent.Length && j < parent.Length
      modifies this, parent
      ensures Valid()
      ensures root == Merged(old(root), i, j)
    {
      var rootI := Find(i);
      var rootJ := Find(j);
      if rootI != rootJ {
        Link(rootI, rootJ);
      } else {
        assert Merged(root, i, j) == root;
      }
      assert Merged(old(root), rootI, rootJ) == Merged(old(root), i, j);
    }

    method Link(rootI: nat, rootJ: nat)
      requires Valid() && rootI < parent.Length && rootJ < parent.Length && rootI != rootJ
      requires root[rootI] == rootI && root[rootJ] == rootJ
      modifies this, parent
      ensures Valid()
      ensures root == Merged(old(root), rootI, rootJ)
    {
      LinkKeepsForest(parent[..], root, level, rootI, rootJ);
      ghost var linked := parent[..][rootJ := rootI];
      parent[rootJ] := rootI;
      assert parent[..] == linked;
      level := Raised(root, level, rootI, rootJ);
      root := Merged(root, rootI, rootJ);
    }
  }
}
