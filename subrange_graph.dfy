/**
 * The subrange graph (subrangegraph.hpp, subrangegraph.cpp): an undirected
 * graph with one vertex per subrange of a face, carrying a level and an
 * area, and edges that may carry the arc they were built from. Crossings of
 * a face border wait in the `neighbors` table until the crossing on the
 * other side of the same mesh edge arrives; `minor_graph` collapses every
 * same-level component into one level-graph vertex.
 */
module SubrangeGraphs {
  import opened Options
  import opened LevelSpec
  import opened LevelGraphs
  import opened Components

  /** The enum `Type`: which end of an arc a crossing belongs to. */
  datatype Role = SOURCE | TARGET | BOTH

  /** The `opposite` table: SOURCE and TARGET swap, BOTH stays. */
  function Opposite(t: Role): (r: Role)
    ensures r == t <==> t == BOTH
  {
    match t
    case SOURCE => TARGET
    case TARGET => SOURCE
    case BOTH => BOTH
  }

  /** Looking the opposite role up twice gives the role back. */
  lemma OppositeInvolution(t: Role)
    ensures Opposite(Opposite(t)) == t
  {
  }

  /** The half-edges of the surface mesh come in pairs 2k, 2k+1, each the
      opposite of the other. */
  function OppositeHalfedge(h: nat): (o: nat)
    ensures o != h && o / 2 == h / 2
  {
    if h % 2 == 0 then h + 1 else h - 1
  }

  /** A pending crossing: the half-edge crossed, the sphere (subrange) and
      the role. Keys are equal exactly when all three fields are, which is
      datatype equality. */
  datatype Neighbor = Neighbor(halfedge: nat, sphere: int, role: Role)

  /** The key a crossing pairs with: the opposite half-edge, the same sphere
      and the opposite role. */
  function Partner(n: Neighbor): (p: Neighbor)
    ensures p != n && p.sphere == n.sphere
  {
    Neighbor(OppositeHalfedge(n.halfedge), n.sphere, Opposite(n.role))
  }

  lemma PartnerInvolution(n: Neighbor)
    ensures Partner(Partner(n)) == n
  {
    OppositeInvolution(n.role);
  }

  /** The table after a match-or-insert step and the edge it adds, if any. */
  datatype Match = Match(pending: map<Neighbor, nat>, edge: Option<(nat, nat)>)

  /** The edge a step adds, as a list of zero or one edges. */
  function Added(m: Match): seq<(nat, nat)>
  {
    if m.edge.Some? then [m.edge.value] else []
  }

  /** The match-or-insert rule of `connect_neighbor` and `merge`: a waiting
      partner is removed and joined to v by an edge; otherwise n waits for
      its partner with vertex v, unless n already waits (emplace keeps the
      first entry). */
  function Connect(pending: map<Neighbor, nat>, n: Neighbor, v: nat): Match
  {
    var p := Partner(n);
    if p in pending then Match(pending - {p}, Some((pending[p], v)))
    else if n in pending then Match(pending, None)
    else Match(pending[n := v], None)
  }

  /** An edge comes out exactly when the partner waits, and joins the
      partner's vertex to v; the table loses the partner or gains n, and
      every entry left was waiting before or is n with v. */
  lemma ConnectFacts(pending: map<Neighbor, nat>, n: Neighbor, v: nat)
    ensures var r := Connect(pending, n, v);
            && (r.edge.Some? <==> Partner(n) in pending)
            && (r.edge.Some? ==> r.edge.value == (pending[Partner(n)], v) && r.pending.Keys == pending.Keys - {Partner(n)})
            && (r.edge.None? ==> r.pending.Keys == pending.Keys + {n})
            && forall k | k in r.pending :: (k in pending && r.pending[k] == pending[k]) || (k == n && r.pending[k] == v)
  {
  }

  /** Each step either adds one waiting entry and no edge, or removes one
      and adds exactly one edge; the only other case is a key that already
      waits, which changes nothing. */
  lemma ConnectOneOrOther(pending: map<Neighbor, nat>, n: Neighbor, v: nat)
    ensures var r := Connect(pending, n, v);
            || (r.edge.None? && |r.pending| == |pending| + 1 && n in r.pending && r.pending[n] == v)
            || (r.edge.Some? && |r.pending| + 1 == |pending|)
            || (r.edge.None? && n in pending && r.pending == pending)
  {
    if Partner(n) in pending {
      RemoveOne(pending, Partner(n));
    } else if n !in pending {
      AddOne(pending, n, v);
    }
  }

  lemma RemoveOne<K, V>(m: map<K, V>, k: K)
    requires k in m
    ensures |m - {k}| + 1 == |m|
  {
    assert (m - {k}).Keys + {k} == m.Keys;
  }

  lemma AddOne<K, V>(m: map<K, V>, k: K, x: V)
    requires k !in m
    ensures |m[k := x]| == |m| + 1
  {
    assert m[k := x].Keys == m.Keys + {k};
  }

  /** No two waiting keys are partners of each other. */
  predicate Unpaired(pending: map<Neighbor, nat>)
  {
    forall k | k in pending :: Partner(k) !in pending
  }

  /** The rule never leaves two partners waiting. */
  lemma ConnectKeepsUnpaired(pending: map<Neighbor, nat>, n: Neighbor, v: nat)
    requires Unpaired(pending)
    ensures Unpaired(Connect(pending, n, v).pending)
  {
    var r := Connect(pending, n, v);
    forall k | k in r.pending
      ensures Partner(k) !in r.pending
    {
      PartnerInvolution(k);
      PartnerInvolution(n);
    }
  }

  /** Every key of `order` is a key of `theirs`, each key of `theirs` comes
      exactly once: an iteration order of the table. */
  predicate Enumerates(order: seq<Neighbor>, theirs: map<Neighbor, nat>)
  {
    && (forall i | 0 <= i < |order| :: order[i] in theirs)
    && (forall k | k in theirs :: k in order)
    && (forall i, j | 0 <= i < j < |order| :: order[i] != order[j])
  }

  /** The table and the added edges after replaying the keys of `order`,
      each with its vertex of `theirs` moved up by `shift`. */
  function Replay(pending: map<Neighbor, nat>, theirs: map<Neighbor, nat>, order: seq<Neighbor>, shift: nat): (r: (map<Neighbor, nat>, seq<(nat, nat)>))
    requires forall i | 0 <= i < |order| :: order[i] in theirs
    ensures |r.1| <= |order|
  {
    if |order| == 0 then (pending, [])
    else
      var last := order[|order| - 1];
      var before := Replay(pending, theirs, order[..|order| - 1], shift);
      var m := Connect(before.0, last, theirs[last] + shift);
      (m.pending, before.1 + Added(m))
  }

  /** Replaying keeps the table free of waiting partners. */
  lemma {:induction false} ReplayUnpaired(pending: map<Neighbor, nat>, theirs: map<Neighbor, nat>, order: seq<Neighbor>, shift: nat)
    requires forall i | 0 <= i < |order| :: order[i] in theirs
    requires Unpaired(pending)
    ensures Unpaired(Replay(pending, theirs, order, shift).0)
  {
    if |order| > 0 {
      var last := order[|order| - 1];
      ReplayUnpaired(pending, theirs, order[..|order| - 1], shift);
      var before := Replay(pending, theirs, order[..|order| - 1], shift);
      ConnectKeepsUnpaired(before.0, last, theirs[last] + shift);
    }
  }

  /** While replaying, a waiting entry either was waiting before, on a
      vertex below shift, or is a replayed key with its moved-up vertex. */
  predicate FromEither(p: map<Neighbor, nat>, theirs: map<Neighbor, nat>, shift: nat)
  {
    forall k | k in p :: p[k] < shift || (k in theirs && p[k] == theirs[k] + shift)
  }

  /** When the replayed table holds no two partners, every edge the replay
      adds joins a vertex below shift (of this graph) to a moved-up vertex
      (of the other graph). */
  lemma {:induction false} ReplayJoinsHalves(pending: map<Neighbor, nat>, theirs: map<Neighbor, nat>, order: seq<Neighbor>, shift: nat)
    requires forall i | 0 <= i < |order| :: order[i] in theirs
    requires Unpaired(theirs) && forall k | k in pending :: pending[k] < shift
    ensures FromEither(Replay(pending, theirs, order, shift).0, theirs, shift)
    ensures forall i | 0 <= i < |Replay(pending, theirs, order, shift).1| ::
              Replay(pending, theirs, order, shift).1[i].0 < shift <= Replay(pending, theirs, order, shift).1[i].1
  {
    if |order| > 0 {
      var last := order[|order| - 1];
      ReplayJoinsHalves(pending, theirs, order[..|order| - 1], shift);
      var before := Replay(pending, theirs, order[..|order| - 1], shift);
      var m := Connect(before.0, last, theirs[last] + shift);
      if m.edge.Some? {
        var p := Partner(last);
        assert p !in theirs;
      }
    }
  }

  /** Replaying one more key of `order` is one more match-or-insert step. */
  lemma ReplayStep(pending: map<Neighbor, nat>, theirs: map<Neighbor, nat>, order: seq<Neighbor>, shift: nat, i: nat,
                   before: map<Neighbor, nat>, added: seq<(nat, nat)>, m: Match)
    requires i < |order| && forall j | 0 <= j < |order| :: order[j] in theirs
    requires Replay(pending, theirs, order[..i], shift) == (before, added)
    requires m == Connect(before, order[i], theirs[order[i]] + shift)
    ensures Replay(pending, theirs, order[..i + 1], shift) == (m.pending, added + Added(m))
  {
    assert order[..i + 1][..i] == order[..i];
  }

  /** k edges without an arc. */
  function Nones(k: nat): (r: seq<Option<Arc>>)
    ensures |r| == k
  {
    seq(k, _ => None)
  }

  /** The edge and arc lists after one more replayed step. */
  lemma MergeStep(copied: seq<(nat, nat)>, copiedArcs: seq<Option<Arc>>, added: seq<(nat, nat)>, more: seq<(nat, nat)>,
                  es: seq<(nat, nat)>, as_: seq<Option<Arc>>, es': seq<(nat, nat)>, as': seq<Option<Arc>>)
    requires es == copied + added && as_ == copiedArcs + Nones(|added|)
    requires es' == es + more && as' == as_ + Nones(|more|)
    ensures es' == copied + (added + more) && as' == copiedArcs + Nones(|added + more|)
  {
    assert Nones(|added|) + Nones(|more|) == Nones(|added + more|);
  }

  /** The edges of a copied graph, renumbered by shift. */
  function Shift(es: seq<(nat, nat)>, shift: nat): (r: seq<(nat, nat)>)
    ensures |r| == |es|
    ensures forall i | 0 <= i < |es| :: r[i] == (es[i].0 + shift, es[i].1 + shift)
  {
    seq(|es|, i requires 0 <= i < |es| => (es[i].0 + shift, es[i].1 + shift))
  }

  /** An edge between vertices of different levels. */
  predicate Crossing(g: Undirected, e: nat)
    requires e < |g.edges|
  {
    g.edges[e].0 < |g.levels| && g.edges[e].1 < |g.levels| && g.levels[g.edges[e].0] != g.levels[g.edges[e].1]
  }

  /** The number of level-graph vertices `minor_graph` creates for the
      levels below l. */
  function Offset(g: Undirected, l: nat): nat
  {
    if l == 0 then 0 else Offset(g, l - 1) + ComponentCount(g, l - 1)
  }

  /** The level-graph vertex of component c of level l. */
  function MinorVertex(g: Undirected, l: nat, c: nat): nat
  {
    Offset(g, l) + c
  }

  /** The level-graph vertex of the component of v. */
  function MinorOf(g: Undirected, v: nat): nat
    requires v < |g.levels| && g.levels[v] >= 0
  {
    MinorVertex(g, g.levels[v], Label(g, v))
  }

  /** The level-graph edge of a crossing edge: from the component of the
      lower end to the component of the higher end. */
  function MinorEnd(g: Undirected, e: nat): End
    requires e < |g.edges| && Crossing(g, e)
    requires g.levels[g.edges[e].0] >= 0 && g.levels[g.edges[e].1] >= 0
  {
    var (s, t) := g.edges[e];
    if g.levels[s] < g.levels[t] then (MinorOf(g, s), MinorOf(g, t)) else (MinorOf(g, t), MinorOf(g, s))
  }

  /** The levels of the level-graph vertices for the levels below l. */
  function MinorLevels(g: Undirected, l: nat): (r: seq<int>)
    ensures |r| == Offset(g, l)
    ensures forall i | 0 <= i < |r| :: 0 <= r[i] < l
  {
    if l == 0 then [] else MinorLevels(g, l - 1) + seq(ComponentCount(g, l - 1), _ => l - 1)
  }

  /** The areas of the components of level l below c. */
  function AreasOf(g: Undirected, areas: seq<real>, l: int, c: nat): seq<real>
    requires |g.levels| <= |areas|
  {
    seq(c, i requires 0 <= i < c => ComponentArea(g, areas, l, i))
  }

  /** The areas of the level-graph vertices for the levels below l. */
  function MinorAreas(g: Undirected, areas: seq<real>, l: nat): (r: seq<real>)
    requires |g.levels| <= |areas|
    ensures |r| == Offset(g, l)
  {
    if l == 0 then [] else MinorAreas(g, areas, l - 1) + AreasOf(g, areas, l - 1, ComponentCount(g, l - 1))
  }

  lemma {:induction false} OffsetGrows(g: Undirected, l: nat, m: nat)
    requires l <= m
    ensures Offset(g, l) <= Offset(g, m)
    decreases m
  {
    if l < m {
      OffsetGrows(g, l, m - 1);
    }
  }

  /** Component c of level l below count becomes a level-graph vertex with
      level l and the component's summed area. */
  lemma {:induction false} MinorVertexAt(g: Undirected, areas: seq<real>, count: nat, l: nat, c: nat)
    requires |g.levels| <= |areas| && l < count && c < ComponentCount(g, l)
    ensures MinorVertex(g, l, c) < Offset(g, count)
    ensures MinorLevels(g, count)[MinorVertex(g, l, c)] == l
    ensures MinorAreas(g, areas, count)[MinorVertex(g, l, c)] == ComponentArea(g, areas, l, c)
    decreases count
  {
    if l + 1 < count {
      MinorVertexAt(g, areas, count - 1, l, c);
      OffsetGrows(g, l + 1, count - 1);
    }
  }

  /** Two vertices of levels below count share a level-graph vertex exactly
      when they have the same level and lie in the same component. */
  lemma MinorSame(g: Undirected, count: nat, u: nat, v: nat)
    requires u < |g.levels| && v < |g.levels|
    requires 0 <= g.levels[u] < count && 0 <= g.levels[v] < count
    ensures MinorOf(g, u) == MinorOf(g, v) <==> g.levels[u] == g.levels[v] && Comp(g, u) == Comp(g, v)
  {
    var areas := seq(|g.levels|, _ => 0.0);
    LabelBound(g, u);
    LabelBound(g, v);
    MinorVertexAt(g, areas, count, g.levels[u], Label(g, u));
    MinorVertexAt(g, areas, count, g.levels[v], Label(g, v));
    if g.levels[u] == g.levels[v] {
      LabelSame(g, u, v);
    }
  }

  /** Edge ends that are exactly the images of the crossing edges, over the
      vertices `minor_graph` creates, form a layered graph. */
  lemma MinorLayered(g: Undirected, count: nat, sk: Skeleton)
    requires WellFormed(sk) && sk.levels == MinorLevels(g, count)
    requires forall e | 0 <= e < |g.edges| && Crossing(g, e) ::
               0 <= g.levels[g.edges[e].0] < count && 0 <= g.levels[g.edges[e].1] < count
    requires forall x :: x in sk.ends <==> exists e | 0 <= e < |g.edges| && Crossing(g, e) :: x == MinorEnd(g, e)
    ensures Layered(sk)
  {
    var areas := seq(|g.levels|, _ => 0.0);
    forall k | 0 <= k < |sk.ends|
      ensures sk.levels[sk.ends[k].0] < sk.levels[sk.ends[k].1]
    {
      assert sk.ends[k] in sk.ends;
      var e :| 0 <= e < |g.edges| && Crossing(g, e) && sk.ends[k] == MinorEnd(g, e);
      var (s, t) := g.edges[e];
      LabelBound(g, s);
      LabelBound(g, t);
      MinorVertexAt(g, areas, count, g.levels[s], Label(g, s));
      MinorVertexAt(g, areas, count, g.levels[t], Label(g, t));
    }
  }

  class SubrangeGraph {
    var levels: seq<int>
    var areas: seq<real>
    var edges: seq<(nat, nat)>
    var arcs: seq<Option<Arc>>
    var neighbors: map<Neighbor, nat>

    /** Every vertex has an area, every edge an arc slot, and edges and
        waiting entries name existing vertices. */
    ghost predicate Valid()
      reads this
    {
      && |areas| == |levels| && |arcs| == |edges|
      && (forall e | 0 <= e < |edges| :: edges[e].0 < |levels| && edges[e].1 < |levels|)
      && (forall k | k in neighbors :: neighbors[k] < |levels|)
    }

    /** The vertex levels and edges as a value. */
    function Graph(): Undirected
      reads this
    {
      Undirected(levels, edges)
    }

    /** An empty graph with nothing waiting. */
    constructor()
      ensures Valid()
      ensures levels == [] && areas == [] && edges == [] && arcs == [] && neighbors == map[]
    {
      levels, areas, edges, arcs, neighbors := [], [], [], [], map[];
    }

    /** `add_vertex`: a new vertex with the given level and a zero area. */
    method AddVertex(level: int) returns (v: nat)
      requires Valid()
      modifies this
      ensures Valid()
      ensures v == old(|levels|) && levels == old(levels) + [level] && areas == old(areas) + [0.0]
      ensures edges == old(edges) && arcs == old(arcs) && neighbors == old(neighbors)
    {
      v := |levels|;
      levels := levels + [level];
      areas := areas + [0.0];
    }

    /** `add_edge` without an arc: the vertex list grows to hold both ends
        and a new edge without arc is appended (parallel edges allowed). */
    method AddEdge(source: nat, target: nat) returns (e: nat)
      requires Valid()
      modifies this
      ensures Valid()
      ensures levels == Pad(old(levels), Need(source, target), 0) && areas == Pad(old(areas), Need(source, target), 0.0)
      ensures e == old(|edges|) && edges == old(edges) + [(source, target)] && arcs == old(arcs) + [None]
      ensures neighbors == old(neighbors)
    {
      var n := Need(source, target);
      levels := Pad(levels, n, 0);
      areas := Pad(areas, n, 0.0);
      e := |edges|;
      edges := edges + [(source, target)];
      arcs := arcs + [None];
    }

    /** `add_edge` with an arc: the same edge, carrying the arc. */
    method AddArcEdge(source: nat, target: nat, arc: Arc) returns (e: nat)
      requires Valid()
      modifies this
      ensures Valid()
      ensures levels == Pad(old(levels), Need(source, target), 0) && areas == Pad(old(areas), Need(source, target), 0.0)
      ensures e == old(|edges|) && edges == old(edges) + [(source, target)] && arcs == old(arcs) + [Some(arc)]
      ensures neighbors == old(neighbors)
    {
      e := AddEdge(source, target);
      arcs := arcs[e := Some(arc)];
    }

    /** `set_area`: only the area of v changes. */
    method SetArea(v: nat, area: real)
      requires Valid() && v < |levels|
      modifies this
      ensures Valid()
      ensures areas == old(areas)[v := area]
      ensures levels == old(levels) && edges == old(edges) && arcs == old(arcs) && neighbors == old(neighbors)
    {
      areas := areas[v := area];
    }

    /** One match-or-insert step for key n and vertex v. */
    method Pair(n: Neighbor, v: nat)
      requires Valid() && v < |levels|
      modifies this
      ensures Valid()
      ensures neighbors == Connect(old(neighbors), n, v).pending
      ensures edges == old(edges) + Added(Connect(old(neighbors), n, v))
      ensures arcs == old(arcs) + Nones(|Added(Connect(old(neighbors), n, v))|)
      ensures levels == old(levels) && areas == old(areas)
    {
      var p := Partner(n);
      if p in neighbors {
        var _ := AddEdge(neighbors[p], v);
        neighbors := neighbors - {p};
      } else if n !in neighbors {
        neighbors := neighbors[n := v];
      }
    }

    /** `connect_neighbor`: the crossing of `halfedge` by sphere `sphere` in
        role `role`, made at `vertex`, pairs with the crossing of the
        opposite half-edge in the opposite role, or waits for it. */
    method ConnectNeighbor(halfedge: nat, sphere: int, role: Role, vertex: nat)
      requires Valid() && vertex < |levels|
      modifies this
      ensures Valid()
      ensures var r := Connect(old(neighbors), Neighbor(halfedge, sphere, role), vertex);
              && neighbors == r.pending
              && edges == old(edges) + Added(r)
              && arcs == old(arcs) + Nones(|Added(r)|)
      ensures levels == old(levels) && areas == old(areas)
    {
      Pair(Neighbor(halfedge, sphere, role), vertex);
    }

    /** `merge`: copies the other graph's vertices after this graph's and
        its edges renumbered, then replays the other graph's waiting entries,
        in the table's iteration order `order`, through the match-or-insert
        rule with their renumbered vertices. */
    method Merge(other: SubrangeGraph, order: seq<Neighbor>)
      requires Valid() && other.Valid() && other != this
      requires Enumerates(order, other.neighbors)
      modifies this
      ensures Valid()
      ensures |levels| == old(|levels|) + |other.levels|
      ensures levels == old(levels) + other.levels && areas == old(areas) + other.areas
      ensures var r := Replay(old(neighbors), other.neighbors, order, old(|levels|));
              && neighbors == r.0
              && edges == old(edges) + Shift(other.edges, old(|levels|)) + r.1
              && arcs == old(arcs) + other.arcs + Nones(|r.1|)
    {
      var n := |levels|;
      CopyGraph(other);
      ReplayEntries(other.neighbors, order, n);
    }

    /** The replay loop of `merge`: each key of `order`, with its vertex of
        `theirs` moved up by `shift`, goes through the match-or-insert rule. */
    method ReplayEntries(theirs: map<Neighbor, nat>, order: seq<Neighbor>, shift: nat)
      requires Valid()
      requires forall i | 0 <= i < |order| :: order[i] in theirs
      requires forall k | k in theirs :: theirs[k] + shift < |levels|
      modifies this
      ensures Valid()
      ensures levels == old(levels) && areas == old(areas)
      ensures var r := Replay(old(neighbors), theirs, order, shift);
              && neighbors == r.0
              && edges == old(edges) + r.1
              && arcs == old(arcs) + Nones(|r.1|)
    {
      var i := 0;
      ghost var added: seq<(nat, nat)> := [];
      while i < |order|
        invariant Valid() && i <= |order|
        invariant levels == old(levels) && areas == old(areas)
        invariant Replay(old(neighbors), theirs, order[..i], shift) == (neighbors, added)
        invariant edges == old(edges) + added && arcs == old(arcs) + Nones(|added|)
      {
        var k := order[i];
        ghost var m := Connect(neighbors, k, theirs[k] + shift);
        ghost var es, as_ := edges, arcs;
        ReplayStep(old(neighbors), theirs, order, shift, i, neighbors, added, m);
        Pair(k, theirs[k] + shift);
        MergeStep(old(edges), old(arcs), added, Added(m), es, as_, edges, arcs);
        added := added + Added(m);
        i := i + 1;
      }
      assert order[..|order|] == order;
    }

    /** `copy_graph` of the other graph into this one: its vertices follow
        this graph's, its edges follow with both ends moved up by the old
        vertex count, arcs copied; the waiting table is untouched. */
    method CopyGraph(other: SubrangeGraph)
      requires Valid() && other.Valid() && other != this
      modifies this
      ensures Valid()
      ensures levels == old(levels) + other.levels && areas == old(areas) + other.areas
      ensures edges == old(edges) + Shift(other.edges, old(|levels|)) && arcs == old(arcs) + other.arcs
      ensures neighbors == old(neighbors)
    {
      var n := |levels|;
      levels, areas := levels + other.levels, areas + other.areas;
      edges, arcs := edges + Shift(other.edges, n), arcs + other.arcs;
    }

    /** `minor_graph`: for each level below count, one level-graph vertex
        per connected component of that level, numbered level by level and
        carrying the summed area of its members; then, for each edge
        between different levels, an edge from the lower end's component to
        the higher end's. */
    method MinorGraph(count: nat) returns (lg: LevelGraph)
      requires Valid()
      requires forall e | 0 <= e < |edges| && Crossing(Graph(), e) ::
                 arcs[e].Some? && 0 <= levels[edges[e].0] < count && 0 <= levels[edges[e].1] < count
      ensures fresh(lg) && lg.Valid()
      ensures lg.levels == MinorLevels(Graph(), count) && lg.areas == MinorAreas(Graph(), areas, count)
      ensures forall x :: x in lg.ends <==> exists e | 0 <= e < |edges| && Crossing(Graph(), e) :: x == MinorEnd(Graph(), e)
      ensures Layered(lg.Shape())
    {
      var g := Graph();
      lg := new LevelGraph();
      var vertices: seq<seq<nat>> := [];
      var l := 0;
      while l < count
        invariant l <= count && fresh(lg) && lg.Valid() && lg.ends == []
        invariant lg.levels == MinorLevels(g, l) && lg.areas == MinorAreas(g, areas, l)
        invariant |vertices| == l
        invariant forall j | 0 <= j < l :: vertices[j] == Row(g, j)
      {
        var row := AddLevel(lg, g, areas, l);
        vertices := vertices + [row];
        l := l + 1;
      }
      AddCrossings(lg, g, arcs, areas, count, vertices);
      forall x
        ensures x in lg.ends <==> exists e | 0 <= e < |edges| && Crossing(g, e) :: x == MinorEnd(g, e)
      {
        ImagesMember(g, |edges|, x);
      }
      MinorLayered(g, count, lg.Shape());
    }
  }

  /** The level-graph vertices of the components of level l, in order. */
  function Row(g: Undirected, l: nat): seq<nat>
  {
    seq(ComponentCount(g, l), c requires 0 <= c => MinorVertex(g, l, c))
  }

  /** The images of the crossing edges below k. */
  function Images(g: Undirected, k: nat): set<End>
    requires k <= |g.edges|
    requires forall e | 0 <= e < |g.edges| && Crossing(g, e) :: g.levels[g.edges[e].0] >= 0 && g.levels[g.edges[e].1] >= 0
  {
    if k == 0 then {}
    else Images(g, k - 1) + if Crossing(g, k - 1) then {MinorEnd(g, k - 1)} else {}
  }

  /** The images of the crossing edges below k are exactly the elements of Images(g, k). */
  lemma ImagesMember(g: Undirected, k: nat, x: End)
    requires k <= |g.edges|
    requires forall e | 0 <= e < |g.edges| && Crossing(g, e) :: g.levels[g.edges[e].0] >= 0 && g.levels[g.edges[e].1] >= 0
    ensures x in Images(g, k) <==> exists e | 0 <= e < k && Crossing(g, e) :: x == MinorEnd(g, e)
  {
    if x in Images(g, k) {
      ImagesFrom(g, k, x);
    }
    forall e | 0 <= e < k && Crossing(g, e)
      ensures MinorEnd(g, e) in Images(g, k)
    {
      ImagesHas(g, k, e);
    }
  }

  lemma {:induction false} ImagesHas(g: Undirected, k: nat, e: nat)
    requires k <= |g.edges|
    requires forall e | 0 <= e < |g.edges| && Crossing(g, e) :: g.levels[g.edges[e].0] >= 0 && g.levels[g.edges[e].1] >= 0
    requires e < k && Crossing(g, e)
    ensures MinorEnd(g, e) in Images(g, k)
  {
    if e < k - 1 {
      ImagesHas(g, k - 1, e);
    }
  }

  lemma {:induction false} ImagesFrom(g: Undirected, k: nat, x: End)
    requires k <= |g.edges|
    requires forall e | 0 <= e < |g.edges| && Crossing(g, e) :: g.levels[g.edges[e].0] >= 0 && g.levels[g.edges[e].1] >= 0
    requires x in Images(g, k)
    ensures exists e | 0 <= e < k && Crossing(g, e) :: x == MinorEnd(g, e)
  {
    if x in Images(g, k - 1) {
      ImagesFrom(g, k - 1, x);
    } else {
      assert Crossing(g, k - 1) && x == MinorEnd(g, k - 1);
    }
  }

  /** The component loop of one level of `minor_graph`: one vertex per
      component, numbered on from the vertices already there, with the
      component's summed area. */
  method AddLevel(lg: LevelGraph, g: Undirected, areas: seq<real>, l: nat) returns (row: seq<nat>)
    requires lg.Valid() && lg.ends == [] && |g.levels| <= |areas|
    requires lg.levels == MinorLevels(g, l) && lg.areas == MinorAreas(g, areas, l)
    modifies lg
    ensures lg.Valid() && lg.ends == []
    ensures lg.levels == MinorLevels(g, l + 1) && lg.areas == MinorAreas(g, areas, l + 1)
    ensures row == Row(g, l)
  {
    var componentCount := ComponentCount(g, l);
    row := [];
    var c := 0;
    while c < componentCount
      invariant c <= componentCount && lg.Valid() && lg.ends == []
      invariant lg.levels == MinorLevels(g, l) + seq(c, _ => l)
      invariant lg.areas == MinorAreas(g, areas, l) + AreasOf(g, areas, l, c)
      invariant row == seq(c, i requires 0 <= i => MinorVertex(g, l, i))
    {
      var v := lg.AddVertex(l, ComponentArea(g, areas, l, c));
      row := row + [v];
      c := c + 1;
    }
  }

  /** The edge loop of `minor_graph`: every crossing edge adds its image;
      the vertices stay as they are. */
  method AddCrossings(lg: LevelGraph, g: Undirected, arcs: seq<Option<Arc>>, areas: seq<real>, count: nat, vertices: seq<seq<nat>>)
    requires lg.Valid() && lg.ends == [] && |arcs| == |g.edges| && |g.levels| <= |areas|
    requires lg.levels == MinorLevels(g, count) && lg.areas == MinorAreas(g, areas, count)
    requires forall e | 0 <= e < |g.edges| && Crossing(g, e) ::
               arcs[e].Some? && 0 <= g.levels[g.edges[e].0] < count && 0 <= g.levels[g.edges[e].1] < count
    requires |vertices| == count && forall j | 0 <= j < count :: vertices[j] == Row(g, j)
    modifies lg
    ensures lg.Valid() && lg.levels == old(lg.levels) && lg.areas == old(lg.areas)
    ensures forall x :: x in lg.ends <==> x in Images(g, |g.edges|)
  {
    var e := 0;
    while e < |g.edges|
      invariant e <= |g.edges| && lg.Valid()
      invariant lg.levels == MinorLevels(g, count) && lg.areas == MinorAreas(g, areas, count)
      invariant forall x :: x in lg.ends <==> x in Images(g, e)
    {
      var (source, target) := g.edges[e];
      ghost var ends0 := lg.ends;
      if source < |g.levels| && target < |g.levels| && g.levels[source] != g.levels[target] {
        var ls, lt := g.levels[source], g.levels[target];
        LabelBound(g, source);
        LabelBound(g, target);
        MinorVertexAt(g, areas, count, ls, Label(g, source));
        MinorVertexAt(g, areas, count, lt, Label(g, target));
        var a := vertices[ls][Label(g, source)];
        var b := vertices[lt][Label(g, target)];
        var (lo, hi) := if ls < lt then (a, b) else (b, a);
        assert (lo, hi) == MinorEnd(g, e);
        PadKeeps(lg.levels, lg.areas, lo, hi);
        var _ := lg.AddEdge(lo, hi, arcs[e].value);
      }
      ImagesStep(g, e, ends0, lg.ends);
      e := e + 1;
    }
  }

  /** Adding an edge between existing vertices pads nothing. */
  lemma PadKeeps(levels: seq<int>, areas: seq<real>, s: nat, t: nat)
    requires s < |levels| && t < |levels| && |areas| == |levels|
    ensures Pad(levels, Need(s, t), 0) == levels && Pad(areas, Need(s, t), 0.0) == areas
  {
  }

  /** The edge list after one more step of the edge loop of `minor_graph`. */
  lemma ImagesStep(g: Undirected, e: nat, ends0: seq<End>, ends1: seq<End>)
    requires e < |g.edges|
    requires forall f | 0 <= f < |g.edges| && Crossing(g, f) :: g.levels[g.edges[f].0] >= 0 && g.levels[g.edges[f].1] >= 0
    requires forall x :: x in ends0 <==> x in Images(g, e)
    requires Crossing(g, e) ==> forall x :: x in ends1 <==> x in ends0 || x == MinorEnd(g, e)
    requires !Crossing(g, e) ==> ends1 == ends0
    ensures forall x :: x in ends1 <==> x in Images(g, e + 1)
  {
  }
}
