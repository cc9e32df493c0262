/** Connected components of a finite edge set, defined by chains and independent of any union-find. */
module Components {

  type Edges = set<(nat, nat)>

  ghost predicate IsChain(edges: Edges, chain: seq<nat>, x: nat, y: nat) {
    && |chain| > 0 && chain[0] == x && chain[|chain| - 1] == y
    && forall k :: 0 < k < |chain| ==> (chain[k - 1], chain[k]) in edges
  }

  ghost predicate Connected(edges: Edges, x: nat, y: nat) {
    exists chain :: IsChain(edges, chain, x, y)
  }

  ghost predicate Undirected(edges: Edges) {
    forall x, y :: (x, y) in edges ==> (y, x) in edges
  }

  ghost predicate Within(edges: Edges, n: nat) {
    forall x, y :: (x, y) in edges ==> x < n && y < n
  }

  /** Two elements carry the same rep exactly when they are connected. */
  ghost predicate Represents(rep: seq<nat>, edges: Edges) {
    forall x, y {:trigger Connected(edges, x, y)} ::
      0 <= x < |rep| && 0 <= y < |rep| ==> (rep[x] == rep[y] <==> Connected(edges, x, y))
  }

  /** Every edge stays inside one class. */
  ghost predicate RespectsEdges(rep: seq<nat>, edges: Edges) {
    Within(edges, |rep|) && forall x, y :: (x, y) in edges ==> rep[x] == rep[y]
  }

  lemma ConnectedSelf(edges: Edges, x: nat)
    ensures Connected(edges, x, x)
  {
    assert IsChain(edges, [x], x, x);
  }

  lemma ConnectedStep(edges: Edges, x: nat, y: nat)
    requires (x, y) in edges
    ensures Connected(edges, x, y)
  {
    assert IsChain(edges, [x, y], x, y);
  }

  lemma ConnectedChain(edges: Edges, x: nat, y: nat, z: nat)
    requires Connected(edges, x, y) && Connected(edges, y, z)
    ensures Connected(edges, x, z)
  {
    var p :| IsChain(edges, p, x, y);
    var q :| IsChain(edges, q, y, z);
    var pq := p + q[1..];
    forall k | 0 < k < |pq| ensures (pq[k - 1], pq[k]) in edges {
      if k >= |p| {
        assert pq[k] == q[k - |p| + 1];
        assert pq[k - 1] == q[k - |p|];
      }
    }
    assert IsChain(edges, pq, x, z);
  }

  lemma ConnectedBack(edges: Edges, x: nat, y: nat)
    requires Undirected(edges) && Connected(edges, x, y)
    ensures Connected(edges, y, x)
  {
    var p :| IsChain(edges, p, x, y);
    var q := seq(|p|, k requires 0 <= k < |p| => p[|p| - 1 - k]);
    forall k | 0 < k < |q| ensures (q[k - 1], q[k]) in edges {
      assert (p[|p| - 1 - k], p[|p| - k]) in edges;
    }
    assert IsChain(edges, q, y, x);
  }

  lemma ConnectedMore(edges: Edges, more: Edges, x: nat, y: nat)
    requires edges <= more && Connected(edges, x, y)
    ensures Connected(more, x, y)
  {
    var p :| IsChain(edges, p, x, y);
    assert IsChain(more, p, x, y);
  }

  /** A chain cannot leave a class that every edge respects. */
  lemma {:induction false} ChainKeepsLabel(rep: seq<nat>, edges: Edges, chain: seq<nat>, x: nat, y: nat)
    requires RespectsEdges(rep, edges) && IsChain(edges, chain, x, y) && x < |rep|
    ensures y < |rep| && rep[x] == rep[y]
    decreases |chain|
  {
    if |chain| > 1 {
      var shorter := chain[..|chain| - 1];
      assert (chain[|chain| - 2], chain[|chain| - 1]) in edges;
      ChainKeepsLabel(rep, edges, shorter, x, shorter[|shorter| - 1]);
    }
  }

  /** Adding edges and merging at most the classes they join keeps labels and chains in agreement:
      `rep` is right for `edges`, `more` adds the edge (i, j), and `merged` identifies nothing else. */
  lemma MergeRepresents(rep: seq<nat>, merged: seq<nat>, edges: Edges, more: Edges, i: nat, j: nat)
    requires Represents(rep, edges) && edges <= more && Undirected(more)
    requires i < |rep| && j < |rep| == |merged| && (i == j || (i, j) in more)
    requires forall x :: 0 <= x < |rep| ==> merged[x] == if rep[x] == rep[j] then rep[i] else rep[x]
    requires RespectsEdges(merged, more)
    ensures Represents(merged, more)
  {
    forall x, y | 0 <= x < |merged| && 0 <= y < |merged|
      ensures merged[x] == merged[y] <==> Connected(more, x, y)
    {
      if Connected(more, x, y) {
        var p :| IsChain(more, p, x, y);
        ChainKeepsLabel(merged, more, p, x, y);
      }
      if merged[x] == merged[y] {
        MergedAreConnected(rep, edges, more, i, j, x, y);
      }
    }
  }

  lemma MergedAreConnected(rep: seq<nat>, edges: Edges, more: Edges, i: nat, j: nat, x: nat, y: nat)
    requires Represents(rep, edges) && edges <= more && Undirected(more)
    requires i < |rep| && j < |rep| && (i == j || (i, j) in more) && x < |rep| && y < |rep|
    requires rep[x] == rep[y] || (rep[x] == rep[i] && rep[y] == rep[j])
             || (rep[x] == rep[j] && rep[y] == rep[i])
    ensures Connected(more, x, y)
  {
    if rep[x] == rep[y] {
      ConnectedMore(edges, more, x, y);
    } else if rep[x] == rep[i] {
      ConnectedAcross(edges, more, x, i, j, y);
    } else {
      ConnectedAcross(edges, more, y, i, j, x);
      ConnectedBack(more, y, x);
    }
  }

  lemma ConnectedAcross(edges: Edges, more: Edges, x: nat, i: nat, j: nat, y: nat)
    requires edges <= more && Connected(edges, x, i) && (i, j) in more && Connected(edges, j, y)
    ensures Connected(more, x, y)
  {
    ConnectedMore(edges, more, x, i);
    ConnectedStep(more, i, j);
    ConnectedMore(edges, more, j, y);
    ConnectedChain(more, x, i, j);
    ConnectedChain(more, x, j, y);
  }

  /** Members of the component of `i` among the first `upto` elements, in encounter order. */
  ghost function ComponentOf(edges: Edges, i: nat, upto: nat): seq<nat> {
    if upto == 0 then []
    else ComponentOf(edges, i, upto - 1) + if Connected(edges, i, upto - 1) then [upto - 1] else []
  }

  /** No earlier element belongs to the component of `i`. */
  ghost predicate IsFirst(edges: Edges, i: nat) {
    forall j: nat :: j < i ==> !Connected(edges, i, j)
  }

  /** The component of `i` as a group, if `i` is its first member and not its only one. */
  ghost function GroupFrom(edges: Edges, n: nat, i: nat): seq<seq<nat>> {
    if IsFirst(edges, i) && |ComponentOf(edges, i, n)| > 1 then [ComponentOf(edges, i, n)] else []
  }

  /** Components of two or more elements, listed by their first member. */
  ghost function Groups(edges: Edges, n: nat, upto: nat): seq<seq<nat>>
    requires upto <= n
  {
    if upto == 0 then [] else Groups(edges, n, upto - 1) + GroupFrom(edges, n, upto - 1)
  }

  lemma {:induction false} ComponentMembers(edges: Edges, i: nat, upto: nat)
    ensures var c := ComponentOf(edges, i, upto);
            && (forall x: nat :: x in c <==> x < upto && Connected(edges, i, x))
            && (forall a, b :: 0 <= a < b < |c| ==> c[a] < c[b])
  {
    if upto > 0 {
      ComponentMembers(edges, i, upto - 1);
      var c := ComponentOf(edges, i, upto);
      var d := ComponentOf(edges, i, upto - 1);
      assert forall x :: x in c <==> x in d || (x == upto - 1 && Connected(edges, i, x));
      assert forall a :: 0 <= a < |d| ==> d[a] in d;
    }
  }

  ghost predicate IsGroupOf(edges: Edges, n: nat, group: seq<nat>) {
    && |group| >= 2 && (forall x :: x in group ==> x < n)
    && (forall a, b :: 0 <= a < b < |group| ==> group[a] < group[b])
    && (forall x: nat, y: nat :: x in group && y < n ==> (y in group <==> Connected(edges, x, y)))
  }

  ghost predicate OrderedByFirst(gs: seq<seq<nat>>) {
    && (forall a :: 0 <= a < |gs| ==> |gs[a]| > 0)
    && (forall a, b :: 0 <= a < b < |gs| ==> gs[a][0] < gs[b][0])
  }

  lemma {:induction false} GroupsAreGroups(edges: Edges, n: nat, upto: nat)
    requires Undirected(edges) && upto <= n
    ensures forall a :: 0 <= a < |Groups(edges, n, upto)| ==>
              IsGroupOf(edges, n, Groups(edges, n, upto)[a]) && Groups(edges, n, upto)[a][0] < upto
    ensures OrderedByFirst(Groups(edges, n, upto))
  {
    if upto > 0 {
      var i := upto - 1;
      GroupsAreGroups(edges, n, i);
      if IsFirst(edges, i) && |ComponentOf(edges, i, n)| > 1 {
        ComponentIsGroup(edges, n, i);
      }
    }
  }

  lemma {:induction false} GroupsAreAll(edges: Edges, n: nat, upto: nat, z: nat)
    requires z < upto <= n && IsFirst(edges, z) && |ComponentOf(edges, z, n)| > 1
    ensures ComponentOf(edges, z, n) in Groups(edges, n, upto)
  {
    if z < upto - 1 {
      GroupsAreAll(edges, n, upto - 1, z);
    }
  }

  /** What `Groups` promises, in terms of chains only: every group is a whole component with at least
      two members in increasing order, groups are ordered by first member, and any two distinct
      connected elements are in a common group. */
  lemma GroupsAreTheComponents(edges: Edges, n: nat)
    requires Undirected(edges)
    ensures forall a :: 0 <= a < |Groups(edges, n, n)| ==> IsGroupOf(edges, n, Groups(edges, n, n)[a])
    ensures OrderedByFirst(Groups(edges, n, n))
    ensures forall x: nat, y: nat :: x < n && y < n && x != y && Connected(edges, x, y) ==>
              exists g :: g in Groups(edges, n, n) && x in g && y in g
  {
    GroupsAreGroups(edges, n, n);
    forall x: nat, y: nat | x < n && y < n && x != y && Connected(edges, x, y)
      ensures exists g :: g in Groups(edges, n, n) && x in g && y in g
    {
      ConnectedSelf(edges, x);
      var z := FirstOf(edges, x, x);
      ConnectedChain(edges, z, x, y);
      var c := ComponentOf(edges, z, n);
      ComponentMembers(edges, z, n);
      TwoMembers(c, x, y);
      GroupsAreAll(edges, n, n, z);
    }
  }

  lemma TwoMembers(c: seq<nat>, x: nat, y: nat)
    requires x in c && y in c && x != y
    ensures |c| > 1
  {
    var a :| 0 <= a < |c| && c[a] == x;
    var b :| 0 <= b < |c| && c[b] == y;
    assert a != b;
  }

  lemma ComponentIsGroup(edges: Edges, n: nat, i: nat)
    requires Undirected(edges) && i < n && IsFirst(edges, i) && |ComponentOf(edges, i, n)| > 1
    ensures IsGroupOf(edges, n, ComponentOf(edges, i, n)) && ComponentOf(edges, i, n)[0] == i
  {
    var c := ComponentOf(edges, i, n);
    ComponentMembers(edges, i, n);
    ConnectedSelf(edges, i);
    assert i in c && c[0] in c;
    forall x: nat, y: nat | x in c && y < n
      ensures y in c <==> Connected(edges, x, y)
    {
      ConnectedBack(edges, i, x);
      if y in c { ConnectedChain(edges, x, i, y); }
      if Connected(edges, x, y) { ConnectedChain(edges, i, x, y); }
    }
  }

  /** Every component has a first member. */
  lemma {:induction false} FirstOf(edges: Edges, x: nat, bound: nat) returns (z: nat)
    requires Undirected(edges) && Connected(edges, bound, x)
    ensures z <= bound && IsFirst(edges, z) && Connected(edges, z, x)
    decreases bound
  {
    if IsFirst(edges, bound) {
      z := bound;
    } else {
      var j: nat :| j < bound && Connected(edges, bound, j);
      ConnectedBack(edges, bound, j);
      ConnectedChain(edges, j, bound, x);
      z := FirstOf(edges, x, j);
    }
  }
}
