/**
 * What `minor` computes, stated on the level-graph skeleton: which edges
 * the two depth-first sweeps may count, the graph filtered to accessible
 * edges, its junctions, the chains between them and the Reeb vertices and
 * edges the contraction produces (levelgraph.cpp, levelgraph.hpp).
 */
module MinorSpec {
  import opened LevelSpec
  import opened LevelFacts

  /** u lies at or below the target of an edge of type t (in direction `fwd`). */
  predicate Covered(sk: Skeleton, fwd: bool, types: seq<LineType>, t: LineType, u: nat)
    requires Layered(sk) && |types| == |sk.ends|
  {
    exists f | 0 <= f < |sk.ends| && types[f] == t ::
      RankGrows(sk, fwd, f);
      Reach(sk, fwd, Tgt(sk, fwd, f), u)
  }

  /** Coverage extends along an edge. */
  lemma CoveredStep(sk: Skeleton, fwd: bool, types: seq<LineType>, t: LineType, e: nat)
    requires Layered(sk) && |types| == |sk.ends| && e < |sk.ends|
    requires Covered(sk, fwd, types, t, Src(sk, fwd, e))
    ensures Covered(sk, fwd, types, t, Tgt(sk, fwd, e))
  {
    var f :| 0 <= f < |sk.ends| && types[f] == t && Reach(sk, fwd, Tgt(sk, fwd, f), Src(sk, fwd, e));
    RankGrows(sk, fwd, f);
    ReachStep(sk, fwd, Tgt(sk, fwd, f), e);
  }

  /** The target of an edge of type t is covered. */
  lemma CoveredTarget(sk: Skeleton, fwd: bool, types: seq<LineType>, t: LineType, e: nat)
    requires Layered(sk) && |types| == |sk.ends| && e < |sk.ends| && types[e] == t
    ensures Covered(sk, fwd, types, t, Tgt(sk, fwd, e))
  {
    RankGrows(sk, fwd, e);
    assert Reach(sk, fwd, Tgt(sk, fwd, e), Tgt(sk, fwd, e));
  }

  /** The edges among the first k that are flagged, in edge order. */
  function Keep(ends: seq<End>, acc: seq<bool>, k: nat): (r: seq<End>)
    requires k <= |ends| && |acc| == |ends|
    ensures forall x :: x in r <==> exists e | 0 <= e < k :: acc[e] && ends[e] == x
    ensures Sorted(ends) ==> Sorted(r)
    ensures Sorted(ends) && k < |ends| ==> forall i | 0 <= i < |r| :: LexLess(r[i], ends[k])
  {
    if k == 0 then []
    else
      var r := Keep(ends, acc, k - 1);
      if acc[k - 1] then r + [ends[k - 1]] else r
  }

  /** The filtered graph of `minor`: the same vertices, only accessible edges. */
  function Filtered(sk: Skeleton, acc: seq<bool>): (f: Skeleton)
    requires |acc| == |sk.ends|
    ensures f.levels == sk.levels && f.areas == sk.areas
    ensures forall x :: x in f.ends <==> exists e | 0 <= e < |sk.ends| :: acc[e] && sk.ends[e] == x
  {
    Skeleton(sk.levels, sk.areas, Keep(sk.ends, acc, |sk.ends|))
  }

  /** Dropping edges keeps a layered graph layered. */
  lemma FilteredLayered(sk: Skeleton, acc: seq<bool>)
    requires Layered(sk) && |acc| == |sk.ends|
    ensures Layered(Filtered(sk, acc))
  {
    var f := Filtered(sk, acc);
    forall i | 0 <= i < |f.ends|
      ensures f.ends[i].0 < |f.levels| && f.ends[i].1 < |f.levels|
      ensures f.levels[f.ends[i].0] < f.levels[f.ends[i].1]
    {
      assert f.ends[i] in f.ends;
    }
  }

  /** v has a flagged incident edge exactly when it has an in- or out-edge
      in the filtered graph. */
  lemma {:induction false} IncidentInFiltered(sk: Skeleton, acc: seq<bool>, v: nat)
    requires |acc| == |sk.ends|
    ensures var f := Filtered(sk, acc);
            InDegree(f, true, v) + OutDegree(f, true, v) > 0 <==>
            exists e | 0 <= e < |sk.ends| :: acc[e] && (sk.ends[e].0 == v || sk.ends[e].1 == v)
  {
    var f := Filtered(sk, acc);
    if exists e | 0 <= e < |sk.ends| :: acc[e] && (sk.ends[e].0 == v || sk.ends[e].1 == v) {
      var e :| 0 <= e < |sk.ends| && acc[e] && (sk.ends[e].0 == v || sk.ends[e].1 == v);
      assert sk.ends[e] in f.ends;
      var i :| 0 <= i < |f.ends| && f.ends[i] == sk.ends[e];
      if sk.ends[e].0 == v {
        assert i in OutEdges(f, true, v);
      } else {
        assert i in InEdges(f, true, v);
      }
    }
    if InDegree(f, true, v) + OutDegree(f, true, v) > 0 {
      var i := if OutDegree(f, true, v) > 0 then OutEdges(f, true, v)[0] else InEdges(f, true, v)[0];
      assert f.ends[i] in f.ends;
    }
  }

  /** The vertices below k that are kept and have no in-edge, ascending:
      `root_vertices` of a (filtered) graph. */
  function RootsOf(sk: Skeleton, fwd: bool, keep: seq<bool>, k: nat): (rs: seq<nat>)
    requires k <= |keep|
    ensures forall v: nat :: v in rs <==> v < k && keep[v] && InDegree(sk, fwd, v) == 0
    ensures forall i, j | 0 <= i < j < |rs| :: rs[i] < rs[j]
    ensures forall i | 0 <= i < |rs| :: rs[i] < k
  {
    if k == 0 then []
    else if keep[k - 1] && InDegree(sk, fwd, k - 1) == 0 then RootsOf(sk, fwd, keep, k - 1) + [k - 1]
    else RootsOf(sk, fwd, keep, k - 1)
  }

  /** A vertex inside a chain: exactly one in-edge and one out-edge. */
  predicate InChain(f: Skeleton, v: nat)
  {
    InDegree(f, true, v) == 1 && OutDegree(f, true, v) == 1
  }

  /** The first vertex at or after v, following the only out-edge, that is
      not inside a chain. */
  function ChainEnd(f: Skeleton, v: nat): (w: nat)
    requires Layered(f) && v < |f.levels|
    ensures w < |f.levels| && !InChain(f, w)
    ensures Reach(f, true, v, w)
    ensures InDegree(f, true, v) > 0 ==> InDegree(f, true, w) > 0
    decreases Top(f.levels) - Rank(f, true, v)
  {
    if !InChain(f, v) then v
    else
      var e := OutEdges(f, true, v)[0];
      RankGrows(f, true, e);
      assert e in InEdges(f, true, Tgt(f, true, e));
      var w := ChainEnd(f, Tgt(f, true, e));
      assert e in OutEdges(f, true, v);
      w
  }

  /** The end of the chain behind an edge has an in-edge. */
  lemma ChainEndHasInEdge(f: Skeleton, e: nat)
    requires Layered(f) && e < |f.ends|
    ensures InDegree(f, true, ChainEnd(f, Tgt(f, true, e))) > 0
  {
    assert e in InEdges(f, true, Tgt(f, true, e));
  }

  /** The junctions `minor` starts from: accessible vertices without an
      accessible in-edge. */
  predicate IsJunction(f: Skeleton, vacc: seq<bool>, v: nat)
  {
    v < |vacc| && vacc[v] && InDegree(f, true, v) == 0
  }

  /** The level a Reeb vertex gets: a junction keeps its level; a vertex
      found at the end of a chain is put half a level below, or a whole
      level below when it has no out-edge. */
  function ReebLevel(f: Skeleton, vacc: seq<bool>, v: nat): real
    requires v < |f.levels|
  {
    if IsJunction(f, vacc, v) then f.levels[v] as real
    else f.levels[v] as real - (if OutDegree(f, true, v) == 0 then 1.0 else 0.5)
  }

  /** One step of the contraction: an out-edge of a leads to a chain that ends at b. */
  predicate ReebStep(f: Skeleton, a: nat, b: nat)
    requires Layered(f) && a < |f.levels|
  {
    exists e | e in OutEdges(f, true, a) ::
      RankGrows(f, true, e);
      ChainEnd(f, Tgt(f, true, e)) == b
  }

  /** The numbering of Reeb vertices: `order[i]` is the level-graph vertex
      of Reeb vertex i, each at most once. */
  predicate Numbered(f: Skeleton, order: seq<nat>)
  {
    && (forall i | 0 <= i < |order| :: order[i] < |f.levels|)
    && (forall i, j | 0 <= i < j < |order| :: order[i] != order[j])
  }

  /** The end of the chain behind edge e. */
  function ChainAfter(f: Skeleton, e: nat): (w: nat)
    requires Layered(f) && e < |f.ends|
    ensures w < |f.levels| && w == ChainEnd(f, Tgt(f, true, e))
  {
    RankGrows(f, true, e);
    ChainEnd(f, Tgt(f, true, e))
  }

  /** The Reeb vertex of v under the numbering order: its position there,
      or |order| when it has none. */
  function IndexIn(order: seq<nat>, v: nat): (i: nat)
    ensures i <= |order|
    ensures v in order <==> i < |order|
    ensures i < |order| ==> order[i] == v
  {
    if |order| == 0 then 0
    else if order[0] == v then 0
    else 1 + IndexIn(order[1..], v)
  }

  /** A vertex keeps its position when the numbering grows. */
  lemma {:induction false} IndexInPrefix(a: seq<nat>, b: seq<nat>, v: nat)
    requires |a| <= |b| && b[..|a|] == a && v in a
    ensures IndexIn(b, v) == IndexIn(a, v)
  {
    assert b[0] == a[0];
    if a[0] != v {
      assert b[1..][..|a[1..]|] == a[1..];
      IndexInPrefix(a[1..], b[1..], v);
    }
  }

  /** The Reeb edges `minor` adds for the first k out-edges of v, in
      order: one per out-edge, from v's Reeb vertex to that of the end of
      the chain behind the edge, duplicates included. */
  function ReebEdgesUpTo(f: Skeleton, order: seq<nat>, v: nat, k: nat): (es: seq<(nat, nat)>)
    requires Layered(f) && k <= OutDegree(f, true, v)
    ensures |es| == k
  {
    if k == 0 then []
    else
      ReebEdgesUpTo(f, order, v, k - 1)
      + [(IndexIn(order, v), IndexIn(order, ChainAfter(f, OutEdges(f, true, v)[k - 1])))]
  }

  /** The edge list once the Reeb edges of the first k out-edges of v have
      been appended to start. */
  ghost predicate LinkedSoFar(f: Skeleton, start: seq<(nat, nat)>, order: seq<nat>, edges: seq<(nat, nat)>, v: nat, k: nat)
    requires Layered(f)
  {
    k <= OutDegree(f, true, v) && edges == start + ReebEdgesUpTo(f, order, v, k)
  }

  /** The Reeb edges `minor` adds when it expands v. */
  function ReebEdgesOf(f: Skeleton, order: seq<nat>, v: nat): (es: seq<(nat, nat)>)
    requires Layered(f)
    ensures |es| == OutDegree(f, true, v)
  {
    ReebEdgesUpTo(f, order, v, OutDegree(f, true, v))
  }

  /** The Reeb edges `minor` adds when it expands the vertices vs in turn. */
  function Expansion(f: Skeleton, order: seq<nat>, vs: seq<nat>): (es: seq<(nat, nat)>)
    requires Layered(f)
  {
    if vs == [] then []
    else Expansion(f, order, vs[..|vs| - 1]) + ReebEdgesOf(f, order, vs[|vs| - 1])
  }

  /** The number of out-edges of the vertices vs. */
  function OutDegreeSum(f: Skeleton, vs: seq<nat>): nat
  {
    if vs == [] then 0 else OutDegreeSum(f, vs[..|vs| - 1]) + OutDegree(f, true, vs[|vs| - 1])
  }

  /** Expanding vs adds one Reeb edge per out-edge: parallel edges stay. */
  lemma {:induction false} ExpansionSize(f: Skeleton, order: seq<nat>, vs: seq<nat>)
    requires Layered(f)
    ensures |Expansion(f, order, vs)| == OutDegreeSum(f, vs)
    decreases |vs|
  {
    if vs != [] {
      ExpansionSize(f, order, vs[..|vs| - 1]);
    }
  }

  /** The vertices of vs, in order, that `minor` queues when it gives them a
      Reeb vertex: those with both an in-edge and an out-edge. */
  function Queued(f: Skeleton, vs: seq<nat>): (qs: seq<nat>)
  {
    if |vs| == 0 then []
    else
      var v := vs[|vs| - 1];
      Queued(f, vs[..|vs| - 1]) + (if InDegree(f, true, v) != 0 && OutDegree(f, true, v) != 0 then [v] else [])
  }

  /** The Reeb graph (levels, edges) is the contraction of the filtered
      graph f with accessible vertices vacc, Reeb vertex i standing for
      level-graph vertex order[i]:
      - the junctions come first, in vertex order;
      - each Reeb vertex has the level ReebLevel gives its vertex;
      - every Reeb edge follows an out-edge and the chain behind it;
      - every out-edge of a represented vertex yields such a Reeb edge;
      - every Reeb vertex but the junctions is the target of a Reeb edge;
      - the edge list is exactly what expanding the junctions and then the
        queued vertices, in numbering order, adds: one edge per out-edge. */
  predicate Contraction(f: Skeleton, vacc: seq<bool>, order: seq<nat>, levels: seq<real>, edges: seq<(nat, nat)>)
    requires Layered(f) && |vacc| == |f.levels|
  {
    var junctions := RootsOf(f, true, vacc, |f.levels|);
    && Numbered(f, order)
    && |levels| == |order|
    && |junctions| <= |order| && order[..|junctions|] == junctions
    && (forall i | 0 <= i < |order| :: levels[i] == ReebLevel(f, vacc, order[i]))
    && (forall k | 0 <= k < |edges| ::
          edges[k].0 < |order| && edges[k].1 < |order| && ReebStep(f, order[edges[k].0], order[edges[k].1]))
    && (forall i, e | 0 <= i < |order| && e in OutEdges(f, true, order[i]) ::
          exists j | 0 <= j < |order| :: order[j] == ChainEnd(f, Tgt(f, true, e)) && (i, j) in edges)
    && (forall i | 0 <= i < |order| :: IsJunction(f, vacc, order[i]) || exists k | 0 <= k < |edges| :: edges[k].1 == i)
    && edges == Expansion(f, order, junctions + Queued(f, order[|junctions|..]))
  }

  /** A contraction step follows a non-empty path of the filtered graph. */
  lemma StepReaches(f: Skeleton, a: nat, b: nat)
    requires Layered(f) && a < |f.levels| && ReebStep(f, a, b)
    ensures Reach(f, true, a, b) && Rank(f, true, a) < Rank(f, true, b)
  {
    var e :| e in OutEdges(f, true, a) && ChainEnd(f, Tgt(f, true, e)) == b;
    RankGrows(f, true, e);
    assert Reach(f, true, a, a);
    ReachStep(f, true, a, e);
    ReachTrans(f, true, a, Tgt(f, true, e), b);
    ReachRank(f, true, Tgt(f, true, e), b);
  }

  /** No Reeb vertex stands for a vertex inside a chain, and each Reeb edge
      follows a non-empty path of the filtered graph. */
  lemma ContractionSkipsChains(f: Skeleton, vacc: seq<bool>, order: seq<nat>, levels: seq<real>,
                               edges: seq<(nat, nat)>, i: nat, k: nat)
    requires Layered(f) && |vacc| == |f.levels|
    requires Contraction(f, vacc, order, levels, edges)
    requires i < |order| && k < |edges|
    ensures !InChain(f, order[i])
    ensures Reach(f, true, order[edges[k].0], order[edges[k].1])
    ensures Rank(f, true, order[edges[k].0]) < Rank(f, true, order[edges[k].1])
  {
    if !IsJunction(f, vacc, order[i]) {
      var k2 :| 0 <= k2 < |edges| && edges[k2].1 == i;
      assert ReebStep(f, order[edges[k2].0], order[i]);
    }
    StepReaches(f, order[edges[k].0], order[edges[k].1]);
  }

  /** The colours of a depth-first visit. */
  datatype Color = White | Gray | Black

  /** The state of one `depth_first_visit` with an `su_visitor`: the colour
      map, the visitor's shared `found` flag and the edge counters. */
  datatype Dfs = Dfs(color: seq<Color>, found: bool, cnt: seq<nat>)

  predicate Fits(sk: Skeleton, s: Dfs)
  {
    |s.color| == |sk.levels| && |s.cnt| == |sk.ends|
  }

  /** What `depth_first_visit` from u does to the state: u turns gray, its
      out-edges are handled in order, and u turns black. */
  ghost function VisitSpec(sk: Skeleton, fwd: bool, types: seq<LineType>, t: LineType, u: nat, s: Dfs): (r: Dfs)
    requires Layered(sk) && |types| == |sk.ends| && Fits(sk, s) && u < |sk.levels|
    ensures Fits(sk, r)
    decreases Top(sk.levels) - Rank(sk, fwd, u), 2, 0
  {
    var r := EdgesSpec(sk, fwd, types, t, u, 0, s.(color := s.color[u := Gray]));
    r.(color := r.color[u := Black])
  }

  /** The out-edges of u from the i-th on, handled in order. */
  ghost function EdgesSpec(sk: Skeleton, fwd: bool, types: seq<LineType>, t: LineType, u: nat, i: nat, s: Dfs): (r: Dfs)
    requires Layered(sk) && |types| == |sk.ends| && Fits(sk, s) && u < |sk.levels|
    requires i <= OutDegree(sk, fwd, u)
    ensures Fits(sk, r)
    decreases Top(sk.levels) - Rank(sk, fwd, u), 1, OutDegree(sk, fwd, u) - i
  {
    if i == OutDegree(sk, fwd, u) then s
    else EdgesSpec(sk, fwd, types, t, u, i + 1, EdgeSpec(sk, fwd, types, t, OutEdges(sk, fwd, u)[i], s))
  }

  /** One out-edge e of a gray vertex, as boost's `depth_first_visit` treats
      it. A white target makes e a tree edge: the visitor's `tree_edge` runs,
      the target is explored, then `finish_edge`. A gray target makes e a
      back edge, which the visitor ignores until `finish_edge`. A black
      target makes e a forward or cross edge: `forward_or_cross_edge`, then
      `finish_edge`. Visiting sets `found` when e has type t and counts e
      while `found` is on; finishing clears `found` when e has type t. */
  ghost function EdgeSpec(sk: Skeleton, fwd: bool, types: seq<LineType>, t: LineType, e: nat, s: Dfs): (r: Dfs)
    requires Layered(sk) && |types| == |sk.ends| && Fits(sk, s) && e < |sk.ends|
    ensures Fits(sk, r)
    decreases Top(sk.levels) - Rank(sk, fwd, Src(sk, fwd, e)), 0, 0
  {
    RankGrows(sk, fwd, e);
    var v := Tgt(sk, fwd, e);
    var on := s.found || types[e] == t;
    var visited := s.(found := on, cnt := if on then s.cnt[e := s.cnt[e] + 1] else s.cnt);
    var explored :=
      if s.color[v] == White then VisitSpec(sk, fwd, types, t, v, visited)
      else if s.color[v] == Gray then s
      else visited;
    explored.(found := explored.found && types[e] != t)
  }

  /** The counters after one visit of a sweep: fresh colours and `found` off,
      started at the source of edge r. */
  ghost function RootSpec(sk: Skeleton, fwd: bool, types: seq<LineType>, t: LineType, r: nat, cnt: seq<nat>): (c: seq<nat>)
    requires Layered(sk) && |types| == |sk.ends| && |cnt| == |sk.ends| && r < |sk.ends|
    ensures |c| == |cnt|
  {
    RankGrows(sk, fwd, r);
    VisitSpec(sk, fwd, types, t, Src(sk, fwd, r), Dfs(seq(|sk.levels|, _ => White), false, cnt)).cnt
  }

  /** The counters after the visits started at the sources of roots, in order. */
  ghost function SweepOver(sk: Skeleton, fwd: bool, types: seq<LineType>, t: LineType, roots: seq<nat>, cnt: seq<nat>): (c: seq<nat>)
    requires Layered(sk) && |types| == |sk.ends| && |cnt| == |sk.ends|
    requires forall e | e in roots :: e < |sk.ends|
    ensures |c| == |cnt|
    decreases |roots|
  {
    if roots == [] then cnt
    else
      assert roots[0] in roots && forall e | e in roots[1..] :: e in roots;
      SweepOver(sk, fwd, types, t, roots[1..], RootSpec(sk, fwd, types, t, roots[0], cnt))
  }

  /** A set of vertices that holds the target of every edge of type t and
      of every edge leaving it: it contains every covered vertex. */
  predicate Closed(sk: Skeleton, fwd: bool, types: seq<LineType>, t: LineType, cov: set<nat>)
    requires |types| == |sk.ends|
  {
    forall e | 0 <= e < |sk.ends| && (types[e] == t || Src(sk, fwd, e) in cov) :: Tgt(sk, fwd, e) in cov
  }

  /** The counters went from c to c' by increments only, and only on edges
      of type t or edges leaving cov. */
  predicate Grows(sk: Skeleton, fwd: bool, types: seq<LineType>, t: LineType, cov: set<nat>, c: seq<nat>, c': seq<nat>)
    requires |types| == |sk.ends| && |c| == |sk.ends|
  {
    && |c'| == |c|
    && (forall e | 0 <= e < |c| :: c'[e] >= c[e])
    && forall e | 0 <= e < |c| && c'[e] > c[e] :: types[e] == t || Src(sk, fwd, e) in cov
  }

  lemma GrowsTrans(sk: Skeleton, fwd: bool, types: seq<LineType>, t: LineType, cov: set<nat>,
                   c0: seq<nat>, c1: seq<nat>, c2: seq<nat>)
    requires |types| == |sk.ends| && |c0| == |sk.ends|
    requires Grows(sk, fwd, types, t, cov, c0, c1) && Grows(sk, fwd, types, t, cov, c1, c2)
    ensures Grows(sk, fwd, types, t, cov, c0, c2)
  {
  }

  /** The gray vertices of two colour maps are the same. */
  predicate SameGray(a: seq<Color>, b: seq<Color>)
  {
    |a| == |b| && forall w | 0 <= w < |a| :: (a[w] == Gray) == (b[w] == Gray)
  }

  /** Every gray vertex (the current path of the visit) has rank below k. */
  predicate GrayUnder(sk: Skeleton, fwd: bool, color: seq<Color>, k: nat)
    requires Layered(sk)
  {
    forall w | 0 <= w < |color| && w < |sk.levels| && color[w] == Gray :: Rank(sk, fwd, w) < k
  }

  /** Two colour maps with the same gray vertices. */
  lemma GrayUnderSame(sk: Skeleton, fwd: bool, a: seq<Color>, b: seq<Color>, k: nat)
    requires Layered(sk) && SameGray(a, b) && GrayUnder(sk, fwd, a, k)
    ensures GrayUnder(sk, fwd, b, k)
  {
  }

  /** A visit from a white vertex u with every gray vertex below u: u ends
      black, no other vertex changes between gray and not gray, and `found`
      is never switched on for the caller. */
  lemma {:induction false} VisitColor(sk: Skeleton, fwd: bool, types: seq<LineType>, t: LineType, u: nat, s: Dfs)
    requires Layered(sk) && |types| == |sk.ends| && Fits(sk, s) && u < |sk.levels|
    requires s.color[u] == White && GrayUnder(sk, fwd, s.color, Rank(sk, fwd, u))
    ensures var r := VisitSpec(sk, fwd, types, t, u, s);
            && r.color[u] == Black
            && (forall w | 0 <= w < |s.color| && w != u :: (r.color[w] == Gray) == (s.color[w] == Gray))
            && (r.found ==> s.found)
    decreases Top(sk.levels) - Rank(sk, fwd, u), 2, 0
  {
    EdgesColor(sk, fwd, types, t, u, 0, s.(color := s.color[u := Gray]));
  }

  /** The out-edges of a gray vertex u from the i-th on, with every gray
      vertex at or below u: the gray vertices stay the same and `found` is
      not switched on. */
  lemma {:induction false} EdgesColor(sk: Skeleton, fwd: bool, types: seq<LineType>, t: LineType, u: nat, i: nat, s: Dfs)
    requires Layered(sk) && |types| == |sk.ends| && Fits(sk, s) && u < |sk.levels|
    requires i <= OutDegree(sk, fwd, u) && s.color[u] == Gray
    requires GrayUnder(sk, fwd, s.color, Rank(sk, fwd, u) + 1)
    ensures var r := EdgesSpec(sk, fwd, types, t, u, i, s);
            SameGray(s.color, r.color) && (r.found ==> s.found)
    decreases Top(sk.levels) - Rank(sk, fwd, u), 1, OutDegree(sk, fwd, u) - i
  {
    if i < OutDegree(sk, fwd, u) {
      var e := OutEdges(sk, fwd, u)[i];
      assert Src(sk, fwd, e) == u;
      EdgeColor(sk, fwd, types, t, e, s);
      EdgesColor(sk, fwd, types, t, u, i + 1, EdgeSpec(sk, fwd, types, t, e, s));
    }
  }

  /** One out-edge e of a gray vertex, with every gray vertex at or below
      its source: e is never a back edge, the gray vertices stay the same
      and `found` is not switched on. */
  lemma {:induction false} EdgeColor(sk: Skeleton, fwd: bool, types: seq<LineType>, t: LineType, e: nat, s: Dfs)
    requires Layered(sk) && |types| == |sk.ends| && Fits(sk, s) && e < |sk.ends|
    requires s.color[Src(sk, fwd, e)] == Gray && GrayUnder(sk, fwd, s.color, Rank(sk, fwd, Src(sk, fwd, e)) + 1)
    ensures s.color[Tgt(sk, fwd, e)] != Gray
    ensures var r := EdgeSpec(sk, fwd, types, t, e, s);
            SameGray(s.color, r.color) && (r.found ==> s.found)
    decreases Top(sk.levels) - Rank(sk, fwd, Src(sk, fwd, e)), 0, 0
  {
    RankGrows(sk, fwd, e);
    var v := Tgt(sk, fwd, e);
    if s.color[v] == White {
      var on := s.found || types[e] == t;
      VisitColor(sk, fwd, types, t, v, s.(found := on, cnt := if on then s.cnt[e := s.cnt[e] + 1] else s.cnt));
    }
  }

  /** A visit from a white vertex u with every gray vertex below u and
      `found` on only inside a closed set cov: the counters grow only on
      edges of type t or edges leaving cov. */
  lemma {:induction false} VisitGrow(sk: Skeleton, fwd: bool, types: seq<LineType>, t: LineType, cov: set<nat>, u: nat, s: Dfs)
    requires Layered(sk) && |types| == |sk.ends| && Fits(sk, s) && u < |sk.levels|
    requires s.color[u] == White && GrayUnder(sk, fwd, s.color, Rank(sk, fwd, u))
    requires Closed(sk, fwd, types, t, cov) && (s.found ==> u in cov)
    ensures Grows(sk, fwd, types, t, cov, s.cnt, VisitSpec(sk, fwd, types, t, u, s).cnt)
    decreases Top(sk.levels) - Rank(sk, fwd, u), 2, 0
  {
    EdgesGrow(sk, fwd, types, t, cov, u, 0, s.(color := s.color[u := Gray]));
  }

  /** The same visit counts the j-th out-edge of u when it has type t. */
  lemma VisitCounted(sk: Skeleton, fwd: bool, types: seq<LineType>, t: LineType, cov: set<nat>, u: nat, s: Dfs, j: nat)
    requires Layered(sk) && |types| == |sk.ends| && Fits(sk, s) && u < |sk.levels|
    requires s.color[u] == White && GrayUnder(sk, fwd, s.color, Rank(sk, fwd, u))
    requires Closed(sk, fwd, types, t, cov) && (s.found ==> u in cov)
    requires j < OutDegree(sk, fwd, u) && types[OutEdges(sk, fwd, u)[j]] == t
    ensures VisitSpec(sk, fwd, types, t, u, s).cnt[OutEdges(sk, fwd, u)[j]] > s.cnt[OutEdges(sk, fwd, u)[j]]
  {
    EdgesCounted(sk, fwd, types, t, cov, u, 0, s.(color := s.color[u := Gray]), j);
  }

  /** The out-edges of a gray vertex u from the i-th on, with every gray
      vertex at or below u and `found` on only inside a closed set cov: the
      counters grow as in Grows. */
  lemma {:induction false} EdgesGrow(sk: Skeleton, fwd: bool, types: seq<LineType>, t: LineType, cov: set<nat>, u: nat, i: nat, s: Dfs)
    requires Layered(sk) && |types| == |sk.ends| && Fits(sk, s) && u < |sk.levels|
    requires i <= OutDegree(sk, fwd, u) && s.color[u] == Gray
    requires GrayUnder(sk, fwd, s.color, Rank(sk, fwd, u) + 1)
    requires Closed(sk, fwd, types, t, cov) && (s.found ==> u in cov)
    ensures Grows(sk, fwd, types, t, cov, s.cnt, EdgesSpec(sk, fwd, types, t, u, i, s).cnt)
    decreases Top(sk.levels) - Rank(sk, fwd, u), 1, OutDegree(sk, fwd, u) - i
  {
    if i < OutDegree(sk, fwd, u) {
      var s2 := EdgeSpec(sk, fwd, types, t, OutEdges(sk, fwd, u)[i], s);
      EdgeStep(sk, fwd, types, t, cov, u, i, s);
      EdgesGrow(sk, fwd, types, t, cov, u, i + 1, s2);
      GrowsTrans(sk, fwd, types, t, cov, s.cnt, s2.cnt, EdgesSpec(sk, fwd, types, t, u, i + 1, s2).cnt);
    }
  }

  /** The i-th out-edge of a gray vertex u, under the assumptions of
      EdgesGrow: they still hold after it, the counters grow as in Grows and
      the edge is counted when it has type t. */
  lemma EdgeStep(sk: Skeleton, fwd: bool, types: seq<LineType>, t: LineType, cov: set<nat>, u: nat, i: nat, s: Dfs)
    requires Layered(sk) && |types| == |sk.ends| && Fits(sk, s) && u < |sk.levels|
    requires i < OutDegree(sk, fwd, u) && s.color[u] == Gray
    requires GrayUnder(sk, fwd, s.color, Rank(sk, fwd, u) + 1)
    requires Closed(sk, fwd, types, t, cov) && (s.found ==> u in cov)
    ensures var e := OutEdges(sk, fwd, u)[i];
            var s2 := EdgeSpec(sk, fwd, types, t, e, s);
            && Fits(sk, s2) && s2.color[u] == Gray && GrayUnder(sk, fwd, s2.color, Rank(sk, fwd, u) + 1)
            && (s2.found ==> u in cov)
            && Grows(sk, fwd, types, t, cov, s.cnt, s2.cnt) && (types[e] == t ==> s2.cnt[e] > s.cnt[e])
            && EdgesSpec(sk, fwd, types, t, u, i, s) == EdgesSpec(sk, fwd, types, t, u, i + 1, s2)
    decreases Top(sk.levels) - Rank(sk, fwd, u), 0, 1
  {
    var e := OutEdges(sk, fwd, u)[i];
    assert Src(sk, fwd, e) == u;
    EdgeColor(sk, fwd, types, t, e, s);
    EdgeCount(sk, fwd, types, t, cov, e, s);
    GrayUnderSame(sk, fwd, s.color, EdgeSpec(sk, fwd, types, t, e, s).color, Rank(sk, fwd, u) + 1);
  }

  /** The same out-edges: the j-th out-edge of u, from the i-th on, is
      counted when it has type t. */
  lemma {:induction false} EdgesCounted(sk: Skeleton, fwd: bool, types: seq<LineType>, t: LineType, cov: set<nat>,
                                       u: nat, i: nat, s: Dfs, j: nat)
    requires Layered(sk) && |types| == |sk.ends| && Fits(sk, s) && u < |sk.levels|
    requires i <= j < OutDegree(sk, fwd, u) && s.color[u] == Gray
    requires GrayUnder(sk, fwd, s.color, Rank(sk, fwd, u) + 1)
    requires Closed(sk, fwd, types, t, cov) && (s.found ==> u in cov)
    requires types[OutEdges(sk, fwd, u)[j]] == t
    ensures EdgesSpec(sk, fwd, types, t, u, i, s).cnt[OutEdges(sk, fwd, u)[j]] > s.cnt[OutEdges(sk, fwd, u)[j]]
    decreases OutDegree(sk, fwd, u) - i
  {
    var s2 := EdgeSpec(sk, fwd, types, t, OutEdges(sk, fwd, u)[i], s);
    EdgeStep(sk, fwd, types, t, cov, u, i, s);
    if j == i {
      EdgesGrow(sk, fwd, types, t, cov, u, i + 1, s2);
    } else {
      EdgesCounted(sk, fwd, types, t, cov, u, i + 1, s2, j);
    }
  }

  /** One out-edge e of a gray vertex, with every gray vertex at or below
      its source and `found` on only inside a closed set cov: the counters
      grow as in Grows, and e is counted when it has type t. */
  lemma {:induction false} EdgeCount(sk: Skeleton, fwd: bool, types: seq<LineType>, t: LineType, cov: set<nat>, e: nat, s: Dfs)
    requires Layered(sk) && |types| == |sk.ends| && Fits(sk, s) && e < |sk.ends|
    requires s.color[Src(sk, fwd, e)] == Gray && GrayUnder(sk, fwd, s.color, Rank(sk, fwd, Src(sk, fwd, e)) + 1)
    requires Closed(sk, fwd, types, t, cov) && (s.found ==> Src(sk, fwd, e) in cov)
    ensures var r := EdgeSpec(sk, fwd, types, t, e, s);
            Grows(sk, fwd, types, t, cov, s.cnt, r.cnt) && (types[e] == t ==> r.cnt[e] > s.cnt[e])
    decreases Top(sk.levels) - Rank(sk, fwd, Src(sk, fwd, e)), 0, 0
  {
    RankGrows(sk, fwd, e);
    EdgeColor(sk, fwd, types, t, e, s);
    var v := Tgt(sk, fwd, e);
    var on := s.found || types[e] == t;
    var visited := s.(found := on, cnt := if on then s.cnt[e := s.cnt[e] + 1] else s.cnt);
    assert Grows(sk, fwd, types, t, cov, s.cnt, visited.cnt);
    if s.color[v] == White {
      VisitGrow(sk, fwd, types, t, cov, v, visited);
      GrowsTrans(sk, fwd, types, t, cov, s.cnt, visited.cnt, VisitSpec(sk, fwd, types, t, v, visited).cnt);
    }
  }

  /** The visit of a sweep from the source of an edge r of type t: r is
      counted, and the counters grow as in Grows. */
  lemma RootCount(sk: Skeleton, fwd: bool, types: seq<LineType>, t: LineType, cov: set<nat>, r: nat, cnt: seq<nat>)
    requires Layered(sk) && |types| == |sk.ends| && |cnt| == |sk.ends| && Closed(sk, fwd, types, t, cov)
    requires r < |sk.ends| && types[r] == t
    ensures var c := RootSpec(sk, fwd, types, t, r, cnt);
            Grows(sk, fwd, types, t, cov, cnt, c) && c[r] > cnt[r]
  {
    RankGrows(sk, fwd, r);
    var u := Src(sk, fwd, r);
    assert r in OutEdges(sk, fwd, u);
    var j :| 0 <= j < |OutEdges(sk, fwd, u)| && OutEdges(sk, fwd, u)[j] == r;
    var s := Dfs(seq(|sk.levels|, _ => White), false, cnt);
    VisitGrow(sk, fwd, types, t, cov, u, s);
    VisitCounted(sk, fwd, types, t, cov, u, s, j);
  }

  /** The visits from the sources of edges of type t: every one of those
      edges is counted, and the counters grow as in Grows. */
  lemma {:induction false} SweepOverCount(sk: Skeleton, fwd: bool, types: seq<LineType>, t: LineType, cov: set<nat>,
                                         roots: seq<nat>, cnt: seq<nat>)
    requires Layered(sk) && |types| == |sk.ends| && |cnt| == |sk.ends| && Closed(sk, fwd, types, t, cov)
    requires forall e | e in roots :: e < |sk.ends| && types[e] == t
    ensures var c := SweepOver(sk, fwd, types, t, roots, cnt);
            Grows(sk, fwd, types, t, cov, cnt, c) && forall e | e in roots :: c[e] > cnt[e]
    decreases |roots|
  {
    if roots != [] {
      assert roots[0] in roots && forall e | e in roots[1..] :: e in roots;
      var c1 := RootSpec(sk, fwd, types, t, roots[0], cnt);
      RootCount(sk, fwd, types, t, cov, roots[0], cnt);
      SweepOverCount(sk, fwd, types, t, cov, roots[1..], c1);
      var c := SweepOver(sk, fwd, types, t, roots[1..], c1);
      GrowsTrans(sk, fwd, types, t, cov, cnt, c1, c);
      forall e | e in roots
        ensures c[e] > cnt[e]
      {
        if e != roots[0] {
          assert e in roots[1..];
        }
      }
    }
  }

  /** The covered vertices form a closed set. */
  lemma CoveredClosed(sk: Skeleton, fwd: bool, types: seq<LineType>, t: LineType)
    requires Layered(sk) && |types| == |sk.ends|
    ensures Closed(sk, fwd, types, t, CoveredSet(sk, fwd, types, t))
  {
    forall e | 0 <= e < |sk.ends| && (types[e] == t || Src(sk, fwd, e) in CoveredSet(sk, fwd, types, t))
      ensures Tgt(sk, fwd, e) in CoveredSet(sk, fwd, types, t)
    {
      RankGrows(sk, fwd, e);
      if types[e] == t {
        CoveredTarget(sk, fwd, types, t, e);
      } else {
        CoveredStep(sk, fwd, types, t, e);
      }
    }
  }

  /** Counters all at zero. */
  function NoCounts(n: nat): (z: seq<nat>)
    ensures |z| == n && forall i | 0 <= i < n :: z[i] == 0
  {
    seq(n, _ => 0)
  }

  /** The vertices at or below the target of an edge of type t. */
  function CoveredSet(sk: Skeleton, fwd: bool, types: seq<LineType>, t: LineType): (cov: set<nat>)
    requires Layered(sk) && |types| == |sk.ends|
    ensures forall u: nat :: u in cov <==> u < |sk.levels| && Covered(sk, fwd, types, t, u)
  {
    set u: nat | u < |sk.levels| && Covered(sk, fwd, types, t, u)
  }
}
