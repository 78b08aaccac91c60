/**
 * Connected components of the same-level subgraph of a subrange graph, as
 * `boost::connected_components` numbers them on the level-filtered graph in
 * `SubrangeGraph::minor_graph` (subrangegraph.cpp): the component of a
 * vertex is its closure under edges whose two ends share a level, and the
 * components of a level are numbered 0, 1, ... in the order of their
 * smallest vertex (the depth-first search starts a new component at the
 * first unvisited vertex).
 */
module Components {

  /** The vertex levels and the undirected edge list of a subrange graph. */
  datatype Undirected = Undirected(levels: seq<int>, edges: seq<(nat, nat)>)

  /** Edge e joins two existing vertices of the same level. */
  predicate Internal(g: Undirected, e: nat)
    requires e < |g.edges|
  {
    g.edges[e].0 < |g.levels| && g.edges[e].1 < |g.levels| && g.levels[g.edges[e].0] == g.levels[g.edges[e].1]
  }

  /** The vertices that same-level edges below i lead to from S. */
  function Across(g: Undirected, S: set<nat>, i: nat): set<nat>
    requires i <= |g.edges|
  {
    if i == 0 then {}
    else
      var (a, b) := g.edges[i - 1];
      Across(g, S, i - 1)
        + (if Internal(g, i - 1) && a in S then {b} else {})
        + (if Internal(g, i - 1) && b in S then {a} else {})
  }

  /** S and every vertex one same-level edge away from it. */
  function Grow(g: Undirected, S: set<nat>): set<nat>
  {
    S + Across(g, S, |g.edges|)
  }

  /** Edge e leads from S to x. */
  predicate Leads(g: Undirected, S: set<nat>, e: nat, x: nat)
    requires e < |g.edges|
  {
    Internal(g, e) && ((g.edges[e].0 in S && g.edges[e].1 == x) || (g.edges[e].1 in S && g.edges[e].0 == x))
  }

  lemma {:induction false} AcrossMember(g: Undirected, S: set<nat>, i: nat, x: nat)
    requires i <= |g.edges|
    ensures x in Across(g, S, i) <==> exists e | 0 <= e < i :: Leads(g, S, e, x)
  {
    if i > 0 {
      AcrossMember(g, S, i - 1, x);
      if Leads(g, S, i - 1, x) {
        assert x in Across(g, S, i);
      }
    }
  }

  /** Grow adds exactly the vertices some same-level edge leads to. */
  lemma GrowMember(g: Undirected, S: set<nat>, x: nat)
    ensures x in Grow(g, S) <==> x in S || exists e | 0 <= e < |g.edges| :: Leads(g, S, e, x)
  {
    AcrossMember(g, S, |g.edges|, x);
  }

  /** No same-level edge leaves S. */
  predicate Closed(g: Undirected, S: set<nat>)
  {
    forall e | 0 <= e < |g.edges| && Internal(g, e) :: g.edges[e].0 in S <==> g.edges[e].1 in S
  }

  /** What k rounds of Grow reach from S. */
  function Reach(g: Undirected, S: set<nat>, k: nat): set<nat>
  {
    if k == 0 then S else Grow(g, Reach(g, S, k - 1))
  }

  /** The component of v: as many rounds as there are vertices. */
  function Comp(g: Undirected, v: nat): set<nat>
  {
    Reach(g, {v}, |g.levels|)
  }

  lemma {:induction false} ReachInLevel(g: Undirected, v: nat, k: nat)
    requires v < |g.levels|
    ensures forall x | x in Reach(g, {v}, k) :: x < |g.levels| && g.levels[x] == g.levels[v]
  {
    if k > 0 {
      ReachInLevel(g, v, k - 1);
      var R := Reach(g, {v}, k - 1);
      forall x | x in Grow(g, R)
        ensures x < |g.levels| && g.levels[x] == g.levels[v]
      {
        GrowMember(g, R, x);
      }
    }
  }

  lemma {:induction false} ReachMono(g: Undirected, S: set<nat>, j: nat, k: nat)
    requires j <= k
    ensures Reach(g, S, j) <= Reach(g, S, k)
    decreases k
  {
    if j < k {
      ReachMono(g, S, j, k - 1);
    }
  }

  lemma {:induction false} ReachInside(g: Undirected, S: set<nat>, T: set<nat>, k: nat)
    requires Closed(g, T) && S <= T
    ensures Reach(g, S, k) <= T
  {
    if k > 0 {
      ReachInside(g, S, T, k - 1);
      var R := Reach(g, S, k - 1);
      forall x | x in Grow(g, R)
        ensures x in T
      {
        GrowMember(g, R, x);
      }
    }
  }

  lemma {:induction false} RangeCard(S: set<nat>, n: nat)
    requires forall x | x in S :: x < n
    ensures |S| <= n
  {
    if n > 0 {
      var S' := S - {n - 1};
      RangeCard(S', n - 1);
      assert S <= S' + {n - 1};
    } else {
      assert S == {};
    }
  }

  lemma ProperSubsetCard(A: set<nat>, B: set<nat>)
    requires A <= B && A != B
    ensures |A| < |B|
  {
    assert B == A + (B - A);
    assert A * (B - A) == {};
    var x :| x in B && x !in A;
    assert x in B - A;
  }

  /** A round from A to B changed nothing, or A already has more than k vertices. */
  predicate Settled(A: set<nat>, B: set<nat>, k: nat)
  {
    A == B || |A| >= k + 1
  }

  /** Each round either changes nothing any more or has added a vertex. */
  lemma {:induction false} ReachCount(g: Undirected, v: nat, k: nat)
    ensures Settled(Reach(g, {v}, k), Reach(g, {v}, k + 1), k)
  {
    if k == 0 {
      assert |Reach(g, {v}, 0)| == 1;
    } else {
      var A, B, C := Reach(g, {v}, k - 1), Reach(g, {v}, k), Reach(g, {v}, k + 1);
      ReachCount(g, v, k - 1);
      ReachMono(g, {v}, k - 1, k);
      if A == B {
        GrowSame(g, A, B);
      }
      assert B == Grow(g, A) && C == Grow(g, B);
      CountStep(A, B, C, k);
    }
  }

  lemma GrowSame(g: Undirected, A: set<nat>, B: set<nat>)
    requires A == B
    ensures Grow(g, A) == Grow(g, B)
  {
  }

  lemma CountStep(A: set<nat>, B: set<nat>, C: set<nat>, k: nat)
    requires k > 0 && A <= B && Settled(A, B, k - 1)
    requires A == B ==> B == C
    ensures Settled(B, C, k)
  {
    if B != C {
      ProperSubsetCard(A, B);
    }
  }

  /** A component contains its vertex and no same-level edge leaves it. */
  lemma CompClosed(g: Undirected, v: nat)
    requires v < |g.levels|
    ensures v in Comp(g, v) && Closed(g, Comp(g, v))
  {
    var n := |g.levels|;
    ReachMono(g, {v}, 0, n);
    ReachCount(g, v, n);
    ReachInLevel(g, v, n);
    if Reach(g, {v}, n) != Reach(g, {v}, n + 1) {
      RangeCard(Reach(g, {v}, n), n);
    }
    var C := Comp(g, v);
    forall e | 0 <= e < |g.edges| && Internal(g, e)
      ensures g.edges[e].0 in C <==> g.edges[e].1 in C
    {
      if g.edges[e].0 in C {
        GrowMember(g, C, g.edges[e].1);
        assert Leads(g, C, e, g.edges[e].1);
      }
      if g.edges[e].1 in C {
        GrowMember(g, C, g.edges[e].0);
        assert Leads(g, C, e, g.edges[e].0);
      }
    }
  }

  /** A component is the least closed set holding its vertex. */
  lemma CompLeast(g: Undirected, v: nat, T: set<nat>)
    requires Closed(g, T) && v in T
    ensures Comp(g, v) <= T
  {
    ReachInside(g, {v}, T, |g.levels|);
  }

  /** A vertex of a component has that same component. */
  lemma CompSame(g: Undirected, u: nat, v: nat)
    requires u < |g.levels| && v < |g.levels| && u in Comp(g, v)
    ensures Comp(g, u) == Comp(g, v)
  {
    CompClosed(g, u);
    CompClosed(g, v);
    CompLeast(g, u, Comp(g, v));
    if v !in Comp(g, u) {
      var D := Comp(g, v) - Comp(g, u);
      CompLeast(g, v, D);
      assert false;
    }
    CompLeast(g, v, Comp(g, u));
  }

  /** The two ends of a same-level edge lie in the same component. */
  lemma EdgeComp(g: Undirected, e: nat)
    requires e < |g.edges| && Internal(g, e)
    ensures Comp(g, g.edges[e].0) == Comp(g, g.edges[e].1)
  {
    CompClosed(g, g.edges[e].0);
    CompSame(g, g.edges[e].1, g.edges[e].0);
  }

  /** The first element of S at or after k. */
  function FirstIn(S: set<nat>, k: nat, n: nat): (r: nat)
    requires exists u | u in S :: k <= u < n
    ensures r in S && k <= r < n
    ensures forall u | u in S && k <= u :: r <= u
    decreases n - k
  {
    if k in S then k else FirstIn(S, k + 1, n)
  }

  /** The smallest vertex of v's component. */
  function Rep(g: Undirected, v: nat): (r: nat)
    requires v < |g.levels|
    ensures r in Comp(g, v) && r <= v
    ensures forall u | u in Comp(g, v) :: r <= u
  {
    CompClosed(g, v);
    FirstIn(Comp(g, v), 0, |g.levels|)
  }

  /** Vertices of one component have the same smallest vertex, at their level. */
  lemma RepSame(g: Undirected, u: nat, v: nat)
    requires u < |g.levels| && v < |g.levels| && Comp(g, u) == Comp(g, v)
    ensures Rep(g, u) == Rep(g, v)
    ensures g.levels[Rep(g, v)] == g.levels[v] && Rep(g, Rep(g, v)) == Rep(g, v)
  {
    var r := Rep(g, v);
    ReachInLevel(g, v, |g.levels|);
    CompSame(g, r, v);
  }

  /** The vertices below k at level l that are the smallest of their
      component, ascending. */
  function Leaders(g: Undirected, l: int, k: nat): (rs: seq<nat>)
    requires k <= |g.levels|
    ensures forall i | 0 <= i < |rs| :: rs[i] < k && g.levels[rs[i]] == l && Rep(g, rs[i]) == rs[i]
  {
    if k == 0 then []
    else if g.levels[k - 1] == l && Rep(g, k - 1) == k - 1 then Leaders(g, l, k - 1) + [k - 1]
    else Leaders(g, l, k - 1)
  }

  /** The number of components of level l: what connected_components returns. */
  function ComponentCount(g: Undirected, l: int): nat
  {
    |Leaders(g, l, |g.levels|)|
  }

  /** The component number of v within its level: how many components of
      its level have a smaller smallest vertex. */
  function Label(g: Undirected, v: nat): nat
    requires v < |g.levels|
  {
    |Leaders(g, g.levels[v], Rep(g, v))|
  }

  lemma {:induction false} LeadersPrefix(g: Undirected, l: int, j: nat, k: nat)
    requires j <= k <= |g.levels|
    ensures |Leaders(g, l, j)| <= |Leaders(g, l, k)|
    ensures Leaders(g, l, j) == Leaders(g, l, k)[..|Leaders(g, l, j)|]
    decreases k
  {
    if j < k {
      LeadersPrefix(g, l, j, k - 1);
    }
  }

  lemma {:induction false} LeadersSorted(g: Undirected, l: int, k: nat)
    requires k <= |g.levels|
    ensures forall i, j | 0 <= i < j < |Leaders(g, l, k)| :: Leaders(g, l, k)[i] < Leaders(g, l, k)[j]
  {
    if k > 0 {
      LeadersSorted(g, l, k - 1);
    }
  }

  /** A leader r of level l stands at position |Leaders(g, l, r)| of the full list. */
  lemma LeaderAt(g: Undirected, r: nat)
    requires r < |g.levels| && Rep(g, r) == r
    ensures var rs := Leaders(g, g.levels[r], |g.levels|);
            |Leaders(g, g.levels[r], r)| < |rs| && rs[|Leaders(g, g.levels[r], r)|] == r
  {
    var l := g.levels[r];
    var rs, pre := Leaders(g, l, |g.levels|), Leaders(g, l, r);
    assert Leaders(g, l, r + 1) == pre + [r];
    LeadersPrefix(g, l, r + 1, |g.levels|);
    assert rs[..|pre| + 1] == pre + [r];
    assert rs[|pre|] == (pre + [r])[|pre|];
  }

  /** Every vertex has a component number below its level's count. */
  lemma LabelBound(g: Undirected, v: nat)
    requires v < |g.levels|
    ensures Label(g, v) < ComponentCount(g, g.levels[v])
  {
    RepSame(g, v, v);
    LeaderAt(g, Rep(g, v));
  }

  /** Two vertices of one level get the same component number exactly when
      they lie in the same component. */
  lemma LabelSame(g: Undirected, u: nat, v: nat)
    requires u < |g.levels| && v < |g.levels| && g.levels[u] == g.levels[v]
    ensures Label(g, u) == Label(g, v) <==> Comp(g, u) == Comp(g, v)
  {
    if Comp(g, u) == Comp(g, v) {
      RepSame(g, u, v);
    } else {
      var ru, rv := Rep(g, u), Rep(g, v);
      var l := g.levels[u];
      RepSame(g, u, u);
      RepSame(g, v, v);
      if ru == rv {
        CompSame(g, ru, u);
        CompSame(g, rv, v);
      } else if ru < rv {
        LeaderAt(g, ru);
        LeadersPrefix(g, l, ru + 1, rv);
      } else {
        LeaderAt(g, rv);
        LeadersPrefix(g, l, rv + 1, ru);
      }
    }
  }

  /** Every component number below the count belongs to a vertex of that level. */
  lemma LabelOnto(g: Undirected, l: int, c: nat)
    requires c < ComponentCount(g, l)
    ensures exists v | 0 <= v < |g.levels| :: g.levels[v] == l && Label(g, v) == c
  {
    var rs := Leaders(g, l, |g.levels|);
    var r := rs[c];
    LeaderAt(g, r);
    LeadersSorted(g, l, |g.levels|);
    assert Label(g, r) == c;
  }

  /** The two ends of a same-level edge get the same component number. */
  lemma EdgeLabel(g: Undirected, e: nat)
    requires e < |g.edges| && Internal(g, e)
    ensures Label(g, g.edges[e].0) == Label(g, g.edges[e].1)
  {
    EdgeComp(g, e);
    LabelSame(g, g.edges[e].0, g.edges[e].1);
  }

  /** The summed area of the vertices below k that lie in component c of level l. */
  function AreaBelow(g: Undirected, areas: seq<real>, l: int, c: nat, k: nat): real
    requires k <= |g.levels| <= |areas|
  {
    if k == 0 then 0.0
    else AreaBelow(g, areas, l, c, k - 1) + (if g.levels[k - 1] == l && Label(g, k - 1) == c then areas[k - 1] else 0.0)
  }

  /** The area `minor_graph` gives component c of level l. */
  function ComponentArea(g: Undirected, areas: seq<real>, l: int, c: nat): real
    requires |g.levels| <= |areas|
  {
    AreaBelow(g, areas, l, c, |g.levels|)
  }

  /** The summed area of the vertices of level l below k. */
  function LevelArea(g: Undirected, areas: seq<real>, l: int, k: nat): real
    requires k <= |g.levels| <= |areas|
  {
    if k == 0 then 0.0 else LevelArea(g, areas, l, k - 1) + (if g.levels[k - 1] == l then areas[k - 1] else 0.0)
  }

  /** The areas of components 0 .. n-1 of level l, counting vertices below k. */
  function AreaOfFirst(g: Undirected, areas: seq<real>, l: int, n: nat, k: nat): real
    requires k <= |g.levels| <= |areas|
  {
    if n == 0 then 0.0 else AreaOfFirst(g, areas, l, n - 1, k) + AreaBelow(g, areas, l, n - 1, k)
  }

  lemma {:induction false} AreaOfFirstStep(g: Undirected, areas: seq<real>, l: int, n: nat, k: nat)
    requires 0 < k <= |g.levels| <= |areas|
    ensures AreaOfFirst(g, areas, l, n, k) ==
            AreaOfFirst(g, areas, l, n, k - 1) + (if g.levels[k - 1] == l && Label(g, k - 1) < n then areas[k - 1] else 0.0)
  {
    if n > 0 {
      AreaOfFirstStep(g, areas, l, n - 1, k);
    }
  }

  /** Collapsing a level keeps its area: the components' areas add up to the
      areas of all vertices of that level. */
  lemma {:induction false} AreaKept(g: Undirected, areas: seq<real>, l: int, k: nat)
    requires k <= |g.levels| <= |areas|
    ensures AreaOfFirst(g, areas, l, ComponentCount(g, l), k) == LevelArea(g, areas, l, k)
  {
    var n := ComponentCount(g, l);
    if k == 0 {
      AreaOfFirstZero(g, areas, l, n);
    } else {
      AreaKept(g, areas, l, k - 1);
      AreaOfFirstStep(g, areas, l, n, k);
      if g.levels[k - 1] == l {
        LabelBound(g, k - 1);
      }
    }
  }

  lemma {:induction false} AreaOfFirstZero(g: Undirected, areas: seq<real>, l: int, n: nat)
    requires |g.levels| <= |areas|
    ensures AreaOfFirst(g, areas, l, n, 0) == 0.0
  {
    if n > 0 {
      AreaOfFirstZero(g, areas, l, n - 1);
    }
  }
}
