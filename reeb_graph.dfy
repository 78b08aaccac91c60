/**
 * The Reeb graph: a directed multigraph over vertices 0..n-1, each carrying
 * a level, stored as a bidirectional adjacency list with vector storage
 * (reebgraph.hpp, reebgraph.cpp). The edge list is kept in insertion
 * order; out- and in-edge lists of a vertex are its projections.
 */
module ReebGraphs {

  /** A directed edge (source, target). */
  type Edge = (nat, nat)

  /** The targets of the out-edges of `v`, in insertion order. */
  function Targets(es: seq<Edge>, v: nat): (ts: seq<nat>)
    ensures forall w :: w in ts <==> (v, w) in es
    ensures |ts| <= |es|
  {
    if |es| == 0 then []
    else
      var rest := Targets(es[..|es| - 1], v);
      var last := es[|es| - 1];
      assert es == es[..|es| - 1] + [last];
      if last.0 == v then rest + [last.1] else rest
  }

  /** The sources of the in-edges of `v`, in insertion order. */
  function Sources(es: seq<Edge>, v: nat): (ss: seq<nat>)
    ensures forall u :: u in ss <==> (u, v) in es
    ensures |ss| <= |es|
  {
    if |es| == 0 then []
    else
      var rest := Sources(es[..|es| - 1], v);
      var last := es[|es| - 1];
      assert es == es[..|es| - 1] + [last];
      if last.1 == v then rest + [last.0] else rest
  }

  /** Appending an edge extends the out-list of its source and the in-list of
      its target by exactly that edge and leaves every other list unchanged. */
  lemma AppendEdge(es: seq<Edge>, s: nat, t: nat, v: nat)
    ensures Targets(es + [(s, t)], v) == if v == s then Targets(es, v) + [t] else Targets(es, v)
    ensures Sources(es + [(s, t)], v) == if v == t then Sources(es, v) + [s] else Sources(es, v)
  {
    assert (es + [(s, t)])[..|es|] == es;
  }

  /** Parallel edges are kept: adding an edge that already exists still
      raises the out-degree of its source. */
  lemma ParallelEdgesCount(es: seq<Edge>, s: nat, t: nat)
    requires (s, t) in es
    ensures |Targets(es + [(s, t)], s)| == |Targets(es, s)| + 1
  {
    AppendEdge(es, s, t, s);
  }

  /** The vertex list after `add_edge(s, t)`: grown with default (level 0)
      vertices when an endpoint lies beyond it. */
  function Grown(levels: seq<real>, s: nat, t: nat): (ls: seq<real>)
    ensures s < |ls| && t < |ls| && |levels| <= |ls|
    ensures ls[..|levels|] == levels
    ensures forall i | |levels| <= i < |ls| :: ls[i] == 0.0
    ensures |ls| == if s < |levels| && t < |levels| then |levels| else (if s < t then t else s) + 1
  {
    var need := (if s < t then t else s) + 1;
    if need <= |levels| then levels else levels + seq(need - |levels|, _ => 0.0)
  }

  class ReebGraph {
    /** The level of each vertex; vertices are 0..|levels|-1. */
    var levels: seq<real>
    /** All edges in insertion order. */
    var edges: seq<Edge>

    /** Every edge joins two existing vertices. */
    ghost predicate Valid()
      reads this
    {
      forall i | 0 <= i < |edges| :: edges[i].0 < |levels| && edges[i].1 < |levels|
    }

    /** `vertex_count` vertices at level 0 and no edges. */
    constructor(vertexCount: nat)
      ensures Valid()
      ensures levels == seq(vertexCount, _ => 0.0) && edges == []
    {
      levels := seq(vertexCount, _ => 0.0);
      edges := [];
    }

    function NumVertices(): nat
      reads this
    {
      |levels|
    }

    /** A new vertex with the given level, numbered after the existing ones. */
    method AddVertex(level: real) returns (v: nat)
      requires Valid()
      modifies this
      ensures Valid()
      ensures v == old(|levels|)
      ensures levels == old(levels) + [level] && edges == old(edges)
    {
      v := |levels|;
      levels := levels + [level];
    }

    /** A new edge source -> target, even when one exists already; the vertex
        list grows when an endpoint lies beyond it. */
    method AddEdge(source: nat, target: nat) returns (e: nat)
      requires Valid()
      modifies this
      ensures Valid()
      ensures e == old(|edges|) && edges == old(edges) + [(source, target)]
      ensures levels == Grown(old(levels), source, target)
    {
      e := |edges|;
      ghost var es := edges;
      levels := Grown(levels, source, target);
      edges := edges + [(source, target)];
    }

    function Level(v: nat): real
      requires v < |levels|
      reads this
    {
      levels[v]
    }

    /** `level(v, l)`: only vertex v's level changes. */
    method SetLevel(v: nat, level: real)
      requires v < |levels|
      modifies this
      ensures levels == old(levels)[v := level] && edges == old(edges)
      ensures Level(v) == level
    {
      levels := levels[v := level];
    }

    function OutDegree(v: nat): nat
      reads this
    {
      |Targets(edges, v)|
    }

    function InDegree(v: nat): nat
      reads this
    {
      |Sources(edges, v)|
    }

    /** `adjacent_vertices(v)`: the targets of v's out-edges. */
    function Adjacent(v: nat): (ws: seq<nat>)
      reads this
      ensures |ws| == OutDegree(v)
      ensures forall w :: w in ws <==> (v, w) in edges
    {
      Targets(edges, v)
    }

    /** `adjacent_vertices_in(v)`: the sources of v's in-edges. */
    function AdjacentIn(v: nat): (us: seq<nat>)
      reads this
      ensures |us| == InDegree(v)
      ensures forall u :: u in us <==> (u, v) in edges
    {
      Sources(edges, v)
    }
  }
}
