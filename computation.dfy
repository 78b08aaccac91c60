/**
 * `Computation::run` (computation.cpp): for every generator, every center
 * it places and every level count, the sweep builds a subrange graph, turns
 * it into a level graph with level count + 1 levels, and reads one (S, U)
 * pair per area ratio from it; the per-center pairs are then reduced per
 * aggregation entry. The geometry of the sweep (distances, the face loop)
 * comes in as inputs; the cancel predicate is asked at fixed points.
 */
module Computations {
  import opened Options
  import opened SweepTree
  import opened SuPairs
  import opened Reduction
  import opened TreeEntries
  import opened Reports
  import opened LevelSpec
  import opened LevelFacts
  import MinorSpec
  import opened LevelGraphs
  import opened ReebGraphs
  import opened Components
  import opened SubrangeGraphs

  /** `static_cast<int>` of a double: truncation toward zero. */
  function Trunc(x: real): (i: int)
    ensures x >= 0.0 ==> 0 <= i && i as real <= x < i as real + 1.0
    ensures x < 0.0 ==> i <= 0 && i as real - 1.0 < x <= i as real
  {
    if x >= 0.0 then x.Floor else -((-x).Floor)
  }

  /** The last sphere a face reaches: the slice of its farthest point,
      clamped to the level count so that the guard sphere is the last. */
  function LastSphere(faceMax: real, minDistance: real, step: real, n: int): (s: int)
    requires step != 0.0
    ensures s <= n && s <= Trunc((faceMax - minDistance) / step)
    ensures s == n || s == Trunc((faceMax - minDistance) / step)
  {
    var t := Trunc((faceMax - minDistance) / step);
    if t < n then t else n
  }

  /** The width of one slice of the distance range for n levels. */
  function Step(minDistance: real, maxDistance: real, n: nat): real
  {
    (maxDistance - minDistance) / (n + 1) as real
  }

  function Square(x: real): real
  {
    x * x
  }

  /** The squared radius of the sphere of level i. */
  function Radius(minDistance: real, maxDistance: real, n: nat, i: nat): real
  {
    Square(minDistance + Step(minDistance, maxDistance, n) * i as real)
  }

  /** The squared radii of the spheres of one sweep: one per level at the
      level's distance, then the guard sphere one step beyond the farthest
      point. */
  method Spheres(minDistance: real, maxDistance: real, n: nat) returns (radii: seq<real>)
    ensures |radii| == n + 1
    ensures forall i | 1 <= i <= n :: radii[i - 1] == Radius(minDistance, maxDistance, n, i)
    ensures radii[n] == Square(maxDistance + Step(minDistance, maxDistance, n))
  {
    var step := Step(minDistance, maxDistance, n);
    radii := [];
    var i := 1;
    while i <= n
      invariant 1 <= i <= n + 1 && |radii| == i - 1
      invariant forall j | 1 <= j < i :: radii[j - 1] == Radius(minDistance, maxDistance, n, j)
    {
      radii := radii + [Square(minDistance + step * i as real)];
      i := i + 1;
    }
    radii := radii + [Square(maxDistance + step)];
  }

  /** The guard sphere lies beyond every level sphere when the distances
      are ordered. */
  lemma GuardOutside(minDistance: real, maxDistance: real, n: nat, i: nat)
    requires 0.0 <= minDistance < maxDistance && 1 <= i <= n
    ensures Radius(minDistance, maxDistance, n, i) < Square(maxDistance + Step(minDistance, maxDistance, n))
  {
    var step := Step(minDistance, maxDistance, n);
    var d := maxDistance - minDistance;
    assert step * (n + 1) as real == d;
    assert step > 0.0;
    assert step * i as real <= step * n as real;
    var a, b := minDistance + step * i as real, maxDistance + step;
    assert 0.0 <= a < b;
    assert a * a <= a * b < b * b;
  }

  /** A subrange graph as a value: vertex levels and areas, edges with
      their optional arcs, and the waiting crossings. */
  datatype Part = Part(levels: seq<int>, areas: seq<real>, edges: seq<(nat, nat)>, arcs: seq<Option<Arc>>,
                       neighbors: map<Neighbor, nat>)

  /** What the face loop guarantees of a graph it builds for `count`
      subranges: every edge names existing vertices, a crossing waits with
      a vertex of the crossing's own sphere, and every edge between
      different levels carries its arc and joins levels below count. */
  predicate Sound(p: Part, count: nat)
  {
    && Formed(p)
    && OnSphere(p.neighbors, p.levels, 0)
    && (forall e | 0 <= e < |p.edges| && Crossing(Undirected(p.levels, p.edges), e) ::
          p.arcs[e].Some? && 0 <= p.levels[p.edges[e].0] < count && 0 <= p.levels[p.edges[e].1] < count)
  }

  /** The shape `SubrangeGraph.Valid` asks of a graph. */
  predicate Formed(p: Part)
  {
    && |p.areas| == |p.levels| && |p.arcs| == |p.edges|
    && (forall e | 0 <= e < |p.edges| :: p.edges[e].0 < |p.levels| && p.edges[e].1 < |p.levels|)
    && (forall k | k in p.neighbors :: p.neighbors[k] < |p.levels|)
  }

  /** Every key of the order waits in the table. */
  predicate Keys(order: seq<Neighbor>, m: map<Neighbor, nat>)
  {
    forall i | 0 <= i < |order| :: order[i] in m
  }

  /** One replay order per graph, each naming keys of that graph's table. */
  predicate Keyed(parts: seq<Part>, orders: seq<seq<Neighbor>>)
  {
    |orders| == |parts| && forall i | 0 <= i < |parts| :: Keys(orders[i], parts[i].neighbors)
  }

  function PartOf(g: SubrangeGraph): Part
    reads g
  {
    Part(g.levels, g.areas, g.edges, g.arcs, g.neighbors)
  }

  /** `merge` on values: the other graph's vertices after these, its edges
      renumbered, then its waiting crossings replayed in `order`. */
  function MergedPart(a: Part, b: Part, order: seq<Neighbor>): Part
    requires Keys(order, b.neighbors)
  {
    var n := |a.levels|;
    var r := Replay(a.neighbors, b.neighbors, order, n);
    Part(a.levels + b.levels, a.areas + b.areas, a.edges + Shift(b.edges, n) + r.1, a.arcs + b.arcs + Nones(|r.1|), r.0)
  }

  /** Waiting crossings sit on vertices of their own sphere. */
  predicate OnSphere(pending: map<Neighbor, nat>, levels: seq<int>, shift: nat)
  {
    forall k | k in pending :: pending[k] + shift < |levels| && levels[pending[k] + shift] == k.sphere
  }

  /** Every edge joins two vertices of one level. */
  predicate SameLevel(levels: seq<int>, es: seq<(nat, nat)>)
  {
    forall i | 0 <= i < |es| :: es[i].0 < |levels| && es[i].1 < |levels| && levels[es[i].0] == levels[es[i].1]
  }

  /** One match-or-insert step for a crossing waiting on a vertex of its
      own sphere keeps the table on its spheres and adds no edge across
      levels. */
  lemma ConnectLevels(pending: map<Neighbor, nat>, n: Neighbor, v: nat, levels: seq<int>)
    requires OnSphere(pending, levels, 0) && v < |levels| && levels[v] == n.sphere
    ensures OnSphere(Connect(pending, n, v).pending, levels, 0)
    ensures SameLevel(levels, SubrangeGraphs.Added(Connect(pending, n, v)))
  {
    ConnectFacts(pending, n, v);
    var p := Partner(n);
    var m := Connect(pending, n, v);
    if m.edge.Some? {
      assert levels[pending[p]] == p.sphere == levels[v];
    }
  }

  /** Replaying crossings that wait on vertices of their own sphere keeps
      them so, and every edge it adds joins two vertices of one level. */
  lemma {:induction false} ReplayLevels(pending: map<Neighbor, nat>, theirs: map<Neighbor, nat>, order: seq<Neighbor>,
                                        shift: nat, levels: seq<int>)
    requires forall i | 0 <= i < |order| :: order[i] in theirs
    requires OnSphere(pending, levels, 0) && OnSphere(theirs, levels, shift)
    ensures OnSphere(Replay(pending, theirs, order, shift).0, levels, 0)
    ensures SameLevel(levels, Replay(pending, theirs, order, shift).1)
  {
    if |order| > 0 {
      var last := order[|order| - 1];
      ReplayLevels(pending, theirs, order[..|order| - 1], shift, levels);
      var before := Replay(pending, theirs, order[..|order| - 1], shift);
      ConnectLevels(before.0, last, theirs[last] + shift, levels);
      var added := SubrangeGraphs.Added(Connect(before.0, last, theirs[last] + shift));
      assert Replay(pending, theirs, order, shift).1 == before.1 + added;
      assert forall i | |before.1| <= i < |before.1| + |added| :: (before.1 + added)[i] == added[i - |before.1|];
    }
  }

  /** Merging two sound graphs gives a sound graph: the edges the replay
      adds never cross levels, so every crossing edge still has its arc. */
  lemma MergeSound(a: Part, b: Part, order: seq<Neighbor>, count: nat)
    requires Sound(a, count) && Sound(b, count)
    requires Keys(order, b.neighbors)
    ensures Sound(MergedPart(a, b, order), count)
  {
    var n := |a.levels|;
    var L := a.levels + b.levels;
    ReplayLevels(a.neighbors, b.neighbors, order, n, L);
    var m := MergedPart(a, b, order);
    forall e | 0 <= e < |m.edges|
      ensures m.edges[e].0 < |L| && m.edges[e].1 < |L|
      ensures Crossing(Undirected(L, m.edges), e) ==> m.arcs[e].Some? && 0 <= L[m.edges[e].0] < count && 0 <= L[m.edges[e].1] < count
    {
      MergedEdge(a, b, Replay(a.neighbors, b.neighbors, order, n).1, count, e);
    }
  }

  /** One edge of a merged graph: an edge of the first graph, a renumbered
      edge of the second, or an edge `added` by the replay, which joins one
      level. */
  lemma MergedEdge(a: Part, b: Part, added: seq<(nat, nat)>, count: nat, e: nat)
    requires Sound(a, count) && Sound(b, count)
    requires SameLevel(a.levels + b.levels, added)
    requires e < |a.edges| + |b.edges| + |added|
    ensures var L, es, as_ := a.levels + b.levels, a.edges + Shift(b.edges, |a.levels|) + added, a.arcs + b.arcs + Nones(|added|);
            && es[e].0 < |L| && es[e].1 < |L|
            && (Crossing(Undirected(L, es), e) ==> as_[e].Some? && 0 <= L[es[e].0] < count && 0 <= L[es[e].1] < count)
  {
    var n := |a.levels|;
    var L := a.levels + b.levels;
    var shifted := Shift(b.edges, n);
    var es, as_ := a.edges + shifted + added, a.arcs + b.arcs + Nones(|added|);
    if e < |a.edges| {
      assert es[e] == a.edges[e] && as_[e] == a.arcs[e];
      assert L[a.edges[e].0] == a.levels[a.edges[e].0] && L[a.edges[e].1] == a.levels[a.edges[e].1];
      assert Crossing(Undirected(L, es), e) ==> Crossing(Undirected(a.levels, a.edges), e);
    } else if e < |a.edges| + |b.edges| {
      var x := e - |a.edges|;
      assert es[e] == shifted[x] == (b.edges[x].0 + n, b.edges[x].1 + n);
      assert as_[e] == b.arcs[x];
      assert L[b.edges[x].0 + n] == b.levels[b.edges[x].0] && L[b.edges[x].1 + n] == b.levels[b.edges[x].1];
      assert Crossing(Undirected(L, es), e) ==> Crossing(Undirected(b.levels, b.edges), x);
    } else {
      var k := e - |a.edges| - |b.edges|;
      assert es[e] == added[k];
      assert L[added[k].0] == L[added[k].1];
    }
  }

  /** The sequential fold of `merge` over the thread-local graphs (the
      first is the start value), replaying each later one in its order. */
  function Fold(parts: seq<Part>, orders: seq<seq<Neighbor>>): Part
    requires Keyed(parts, orders)
  {
    if |parts| == 0 then Part([], [], [], [], map[])
    else if |parts| == 1 then parts[0]
    else
      var k := |parts| - 1;
      MergedPart(Fold(parts[..k], orders[..k]), parts[k], orders[k])
  }

  lemma FoldStep(parts: seq<Part>, orders: seq<seq<Neighbor>>, order: seq<Neighbor>, i: nat)
    requires 1 <= i < |parts| && Keyed(parts[..i], orders) && Keys(order, parts[i].neighbors)
    ensures Keyed(parts[..i + 1], orders + [order])
    ensures Fold(parts[..i + 1], orders + [order]) == MergedPart(Fold(parts[..i], orders), parts[i], order)
  {
    assert parts[..i + 1][..i] == parts[..i];
    assert (orders + [order])[..i] == orders;
  }

  /** Every graph after the first is replayed in an iteration order of its
      own table. */
  predicate Iterations(parts: seq<Part>, orders: seq<seq<Neighbor>>)
    requires |orders| == |parts|
  {
    forall i | 1 <= i < |parts| :: Enumerates(orders[i], parts[i].neighbors)
  }

  lemma IterationsStep(parts: seq<Part>, orders: seq<seq<Neighbor>>, order: seq<Neighbor>, i: nat)
    requires 1 <= i < |parts| && |orders| == i
    requires Iterations(parts[..i], orders) && Enumerates(order, parts[i].neighbors)
    ensures Iterations(parts[..i + 1], orders + [order])
  {
    forall j | 1 <= j < i + 1
      ensures Enumerates((orders + [order])[j], parts[..i + 1][j].neighbors)
    {
      if j < i {
        assert (orders + [order])[j] == orders[j] && parts[..i + 1][j] == parts[..i][j];
      }
    }
  }

  function VertexCount(parts: seq<Part>): nat
  {
    if |parts| == 0 then 0 else VertexCount(parts[..|parts| - 1]) + |parts[|parts| - 1].levels|
  }

  /** Combining sound graphs gives a sound graph holding all their
      vertices. */
  lemma {:induction false} FoldSound(parts: seq<Part>, orders: seq<seq<Neighbor>>, count: nat)
    requires Keyed(parts, orders)
    requires forall i | 0 <= i < |parts| :: Sound(parts[i], count)
    ensures Sound(Fold(parts, orders), count)
    ensures |Fold(parts, orders).levels| == VertexCount(parts)
  {
    if |parts| == 1 {
      assert parts[..0] == [];
    } else if |parts| > 1 {
      var k := |parts| - 1;
      FoldSound(parts[..k], orders[..k], count);
      MergeSound(Fold(parts[..k], orders[..k]), parts[k], orders[k], count);
    }
  }

  /** `combine` on graphs the face loop built: the combined graph is sound. */
  method CombineSound(parts: seq<Part>, count: nat) returns (g: SubrangeGraph)
    requires forall i | 0 <= i < |parts| :: Sound(parts[i], count)
    ensures fresh(g) && g.Valid() && Sound(PartOf(g), count)
  {
    ghost var orders;
    g, orders := Combine(parts);
    FoldSound(parts, orders, count);
  }

  /** `minor_graph` of a sound graph: a layered level graph whose levels
      are the subranges below count. */
  method SoundMinor(g: SubrangeGraph, count: nat) returns (lg: LevelGraph)
    requires g.Valid() && Sound(PartOf(g), count)
    ensures fresh(lg) && lg.Valid() && Layered(lg.Shape())
    ensures forall v | 0 <= v < |lg.levels| :: 0 <= lg.levels[v] < count
  {
    lg := g.MinorGraph(count);
  }

  /** A table's keys in some order: the unordered map's iteration order. */
  method KeysOf(m: map<Neighbor, nat>) returns (order: seq<Neighbor>)
    ensures Enumerates(order, m)
  {
    order := [];
    var rest := m.Keys;
    while rest != {}
      invariant rest <= m.Keys
      invariant forall i | 0 <= i < |order| :: order[i] in m && order[i] !in rest
      invariant forall k | k in m :: k in order || k in rest
      invariant forall i, j | 0 <= i < j < |order| :: order[i] != order[j]
      decreases |rest|
    {
      var k :| k in rest;
      order := order + [k];
      rest := rest - {k};
    }
  }

  /** A thread-local graph as an object. */
  method Build(p: Part) returns (g: SubrangeGraph)
    requires Formed(p)
    ensures fresh(g) && g.Valid() && PartOf(g) == p
  {
    g := new SubrangeGraph();
    g.levels, g.areas, g.edges, g.arcs, g.neighbors := p.levels, p.areas, p.edges, p.arcs, p.neighbors;
  }

  /** One step of `combine`: the next thread-local graph merged into g, its
      waiting crossings replayed in the table's iteration order. */
  method MergeNext(g: SubrangeGraph, p: Part) returns (ghost order: seq<Neighbor>)
    requires g.Valid() && Formed(p)
    modifies g
    ensures g.Valid() && Enumerates(order, p.neighbors)
    ensures PartOf(g) == MergedPart(old(PartOf(g)), p, order)
  {
    var other := Build(p);
    var keys := KeysOf(other.neighbors);
    g.Merge(other, keys);
    order := keys;
  }

  /** `combine`: the thread-local graphs merged one after the other into
      the first; an empty graph when there are none. */
  method Combine(parts: seq<Part>) returns (g: SubrangeGraph, ghost orders: seq<seq<Neighbor>>)
    requires forall i | 0 <= i < |parts| :: Formed(parts[i])
    ensures fresh(g) && g.Valid() && Keyed(parts, orders)
    ensures Iterations(parts, orders)
    ensures PartOf(g) == Fold(parts, orders)
  {
    if |parts| == 0 {
      g := new SubrangeGraph();
      orders := [];
      return;
    }
    g := Build(parts[0]);
    orders := [[]];
    for i := 1 to |parts|
      invariant fresh(g) && g.Valid() && Keyed(parts[..i], orders)
      invariant Iterations(parts[..i], orders)
      invariant PartOf(g) == Fold(parts[..i], orders)
    {
      ghost var order := MergeNext(g, parts[i]);
      FoldStep(parts, orders, order, i);
      IterationsStep(parts, orders, order, i);
      orders := orders + [order];
    }
    assert parts[..|parts|] == parts;
  }

  /** The minimum area of an area ratio: that fraction of the surface. */
  function MinArea(surfaceArea: real, ratio: real): real
  {
    surfaceArea * ratio
  }

  /** The counts `get_SU` reads from a level graph for a minimum area: the
      number of inclusion-minimal recorded upstream sets of the forward and
      of the reverse search, each at most the number of roots in its
      direction. */
  function SU(sk: Skeleton, minArea: real): (p: Counts)
    requires Layered(sk)
    ensures p.0 == |Minimal(Recorded(sk, true, minArea))| && p.0 <= RootCount(sk, true)
    ensures p.1 == |Minimal(Recorded(sk, false, minArea))| && p.1 <= RootCount(sk, false)
  {
    CountAtMostRoots(sk, true, minArea);
    CountAtMostRoots(sk, false, minArea);
    (SearchCount(sk, true, minArea), SearchCount(sk, false, minArea))
  }

  /** A level graph built for a level count n: layered, with its vertex
      levels in 0..n. */
  predicate SweptLevel(sk: Skeleton, lc: LevelCount)
  {
    Layered(sk) && forall v | 0 <= v < |sk.levels| :: 0 <= sk.levels[v] <= lc.value
  }

  /** The cells of one level count after the ratio loop of center c. */
  function FillColumn(cells: seq<seq<Counts>>, c: nat, sk: Skeleton, area: real, ratios: seq<AreaRatio>): (cells': seq<seq<Counts>>)
    requires Layered(sk) && |cells| == |ratios| && forall r | 0 <= r < |cells| :: c < |cells[r]|
    ensures |cells'| == |cells|
    ensures forall r | 0 <= r < |cells| :: cells'[r] == cells[r][c := SU(sk, MinArea(area, ratios[r].value))]
  {
    seq(|cells|, r requires 0 <= r < |cells| => cells[r][c := SU(sk, MinArea(area, ratios[r].value))])
  }

  /** The first |row| level counts of center c are done: each has its level
      graph, and each slot of c holds that graph's counts for the minimum
      area of the slot's ratio. */
  predicate ColumnFilled(m: Matrix, cs: CenterSphere, k: nat, c: nat, row: seq<Skeleton>, area: real)
    requires Shaped(m, cs, k) && c < k
  {
    && |row| <= |cs.next|
    && forall l | 0 <= l < |row| ::
         && SweptLevel(row[l], cs.next[l])
         && forall r | 0 <= r < |m[l]| :: m[l][r][c] == SU(row[l], MinArea(area, cs.next[l].next[r].value))
  }

  /** The slots of every center but c are the same in both matrices. */
  predicate Others(m: Matrix, m': Matrix, cs: CenterSphere, k: nat, c: nat)
    requires Shaped(m, cs, k) && Shaped(m', cs, k)
  {
    forall l, r, c' | 0 <= l < |m| && 0 <= r < |m[l]| && 0 <= c' < k && c' != c :: m'[l][r][c'] == m[l][r][c']
  }

  /** Centers below `upto` are done, each with a level graph per level
      count. */
  predicate Filled(m: Matrix, cs: CenterSphere, k: nat, shapes: seq<seq<Skeleton>>, area: real, upto: nat)
    requires Shaped(m, cs, k) && upto <= k
  {
    |shapes| == upto && forall c | 0 <= c < upto :: |shapes[c]| == |cs.next| && ColumnFilled(m, cs, k, c, shapes[c], area)
  }

  lemma ColumnStep(m0: Matrix, m: Matrix, cs: CenterSphere, k: nat, c: nat, row: seq<Skeleton>, area: real, sk: Skeleton)
    requires Shaped(m0, cs, k) && Shaped(m, cs, k) && Others(m0, m, cs, k, c)
    requires c < k && |row| < |cs.next| && ColumnFilled(m, cs, k, c, row, area)
    requires SweptLevel(sk, cs.next[|row|])
    ensures var l := |row|;
            var m' := m[l := FillColumn(m[l], c, sk, area, cs.next[l].next)];
            Shaped(m', cs, k) && ColumnFilled(m', cs, k, c, row + [sk], area) && Others(m0, m', cs, k, c)
    ensures RatioCount(cs.next[..|row| + 1]) == RatioCount(cs.next[..|row|]) + |cs.next[|row|].next|
  {
    assert cs.next[..|row| + 1][..|row|] == cs.next[..|row|];
    var l := |row|;
    var cells := FillColumn(m[l], c, sk, area, cs.next[l].next);
    var m' := m[l := cells];
    assert forall r | 0 <= r < |cells| :: |cells[r]| == k;
    assert Shaped(m', cs, k);
    var row' := row + [sk];
    forall l' | 0 <= l' < |row'|
      ensures SweptLevel(row'[l'], cs.next[l'])
      ensures forall r | 0 <= r < |m'[l']| :: m'[l'][r][c] == SU(row'[l'], MinArea(area, cs.next[l'].next[r].value))
    {
      if l' < l {
        assert m'[l'] == m[l'] && row'[l'] == row[l'];
      }
    }
    forall l', r, c' | 0 <= l' < |m| && 0 <= r < |m[l']| && 0 <= c' < k && c' != c
      ensures m'[l'][r][c'] == m0[l'][r][c']
    {
      assert m'[l'][r][c'] == m[l'][r][c'];
    }
  }

  lemma FilledStep(m: Matrix, m': Matrix, cs: CenterSphere, k: nat, shapes: seq<seq<Skeleton>>, area: real, row: seq<Skeleton>)
    requires Shaped(m, cs, k) && Shaped(m', cs, k) && |shapes| < k
    requires Filled(m, cs, k, shapes, area, |shapes|)
    requires |row| == |cs.next| && ColumnFilled(m', cs, k, |shapes|, row, area) && Others(m, m', cs, k, |shapes|)
    ensures Filled(m', cs, k, shapes + [row], area, |shapes| + 1)
  {
    var c := |shapes|;
    forall c' | 0 <= c' < c + 1
      ensures |(shapes + [row])[c']| == |cs.next| && ColumnFilled(m', cs, k, c', (shapes + [row])[c'], area)
    {
      if c' < c {
        assert ColumnFilled(m, cs, k, c', shapes[c'], area);
      }
    }
  }

  /** A generator's matrix after its center loop: every center is done. */
  predicate Computed(m: Matrix, cs: CenterSphere, shapes: seq<seq<Skeleton>>, area: real)
  {
    cs.value.count >= 1 && Reducible(m, cs, CenterCount(cs.value)) && Filled(m, cs, CenterCount(cs.value), shapes, area, CenterCount(cs.value))
  }

  /** What `run` needs of its parameters: at least one center per generator
      (otherwise the FIRST, SMIN, SMAX, UMIN and UMAX reductions read an
      empty list) and no negative level count (for which the sphere list
      cannot be reserved). */
  predicate Runnable(ps: Parameters)
  {
    forall i | 0 <= i < |ps| :: ps[i].value.count >= 1 && forall l | 0 <= l < |ps[i].next| :: ps[i].next[l].value >= 0
  }

  /** One reducible matrix per generator. */
  predicate Reportable(ps: Parameters, ms: seq<Matrix>)
  {
    |ms| == |ps| && forall i | 0 <= i < |ps| :: ps[i].value.count >= 1 && Reducible(ms[i], ps[i], CenterCount(ps[i].value))
  }

  /** One computed matrix per generator. */
  predicate AllComputed(ps: Parameters, ms: seq<Matrix>, shapes: seq<seq<seq<Skeleton>>>, area: real)
  {
    |ms| == |ps| && |shapes| == |ps| && forall i | 0 <= i < |ps| :: Computed(ms[i], ps[i], shapes[i], area)
  }

  /** The reports of the generators, one after the other. */
  function AllReports(ps: Parameters, ms: seq<Matrix>): seq<Report>
    requires Reportable(ps, ms)
  {
    if |ps| == 0 then []
    else
      var k := |ps| - 1;
      AllReports(ps[..k], ms[..k]) + Reported(ps[k], ms[k], CenterCount(ps[k].value))
  }

  /** A run reports exactly one pair per configuration of the tree, in tree
      order. */
  lemma {:induction false} AllReportsConfigs(ps: Parameters, ms: seq<Matrix>)
    requires Reportable(ps, ms)
    ensures Configs(AllReports(ps, ms)) == Entries(ps)
  {
    if |ps| > 0 {
      var k := |ps| - 1;
      AllReportsConfigs(ps[..k], ms[..k]);
      ReportedConfigs(ps[k], ms[k], CenterCount(ps[k].value));
      ConfigsConcat(AllReports(ps[..k], ms[..k]), Reported(ps[k], ms[k], CenterCount(ps[k].value)));
      FlatAppend((), ps[..k], ps[k], OfGenerator);
      assert ps[..k] + [ps[k]] == ps;
      assert Entries([ps[k]]) == Flat((), [], OfGenerator) + OfGenerator((), ps[k]);
    }
  }

  /** The number of area ratios under a list of level counts. */
  function RatioCount(levels: seq<LevelCount>): nat
  {
    if |levels| == 0 then 0 else RatioCount(levels[..|levels| - 1]) + |levels[|levels| - 1].next|
  }

  /** Level graphs kept for display: one per level count and area ratio, for
      generators with a single center. */
  function Retained(ps: Parameters): nat
  {
    if |ps| == 0 then 0
    else
      var cs := ps[|ps| - 1];
      Retained(ps[..|ps| - 1]) + (if cs.value.count == 1 then RatioCount(cs.next) else 0)
  }

  /** The cancel predicate answered no to the polls from..to-1. */
  predicate Quiet(cancelled: nat -> bool, from: nat, to: nat)
  {
    forall i | from <= i < to :: !cancelled(i)
  }

  /** The polls from..to-1 were asked: all answered no when the run goes
      on; only the last answered yes when it stopped. */
  predicate Polled(cancelled: nat -> bool, ok: bool, from: nat, to: nat)
  {
    from <= to && if ok then Quiet(cancelled, from, to) else from < to && Quiet(cancelled, from, to - 1) && cancelled(to - 1)
  }

  /** One more poll after quiet ones: the run stops at it or goes on. */
  lemma PollStep(cancelled: nat -> bool, from: nat, to: nat)
    requires Polled(cancelled, true, from, to)
    ensures cancelled(to) ==> Polled(cancelled, false, from, to + 1)
    ensures !cancelled(to) ==> Polled(cancelled, true, from, to + 1)
  {
  }

  /** Quiet polls followed by more polls. */
  lemma PollsThen(cancelled: nat -> bool, ok: bool, a: nat, b: nat, c: nat)
    requires Polled(cancelled, true, a, b) && Polled(cancelled, ok, b, c)
    ensures Polled(cancelled, ok, a, c)
  {
  }

  /** The inputs `run` takes from the mesh: its surface area, the distance
      range seen from each center of each generator, and the graphs the
      parallel face loop builds around a center for a list of squared
      sphere radii. */
  datatype Mesh = Mesh(surfaceArea: real,
                       distances: (nat, nat) -> (real, real),
                       faceLoop: (nat, nat, seq<real>) -> seq<Part>)

  /** The face loop builds sound graphs: one subrange per sphere. */
  ghost predicate SoundMesh(mesh: Mesh)
  {
    forall gi: nat, c: nat, radii: seq<real>, i | 0 <= i < |mesh.faceLoop(gi, c, radii)| ::
      Sound(mesh.faceLoop(gi, c, radii)[i], |radii|)
  }

  /** Every kept level graph is well formed and layered, ready to be
      drawn. */
  ghost predicate Displayable(gs: seq<LevelGraph>)
    reads gs
  {
    forall j | 0 <= j < |gs| :: gs[j].Valid() && Layered(gs[j].Shape())
  }

  /** One computation over a mesh: the cancel predicate is asked in order,
      its i-th answer being `cancelled(i)`. */
  class Computation {
    const mesh: Mesh
    const cancelled: nat -> bool
    /** How many times the cancel predicate has been asked. */
    var polls: nat
    var su: seq<SUPair>
    var levelGraphs: seq<LevelGraph>
    var reebGraphs: seq<ReebGraph>

    constructor(mesh: Mesh, cancelled: nat -> bool)
      ensures this.mesh == mesh && this.cancelled == cancelled
      ensures polls == 0 && su == [] && levelGraphs == [] && reebGraphs == []
    {
      this.mesh := mesh;
      this.cancelled := cancelled;
      polls, su, levelGraphs, reebGraphs := 0, [], [], [];
    }

    /** One call of the cancel predicate. */
    method Poll() returns (stop: bool)
      modifies this
      ensures stop == cancelled(old(polls)) && polls == old(polls) + 1
      ensures su == old(su) && levelGraphs == old(levelGraphs) && reebGraphs == old(reebGraphs)
    {
      stop := cancelled(polls);
      polls := polls + 1;
    }

    /** The sweep of one center for n levels: the spheres, the face loop,
        the combined subrange graph and its level graph with n + 1 levels,
        with the polls before and after the face loop and after combining. */
    method Sweep(gi: nat, c: nat, n: nat, minDistance: real, maxDistance: real) returns (ok: bool, lg: LevelGraph)
      requires SoundMesh(mesh)
      modifies this
      ensures Polled(cancelled, ok, old(polls), polls)
      ensures su == old(su) && levelGraphs == old(levelGraphs) && reebGraphs == old(reebGraphs)
      ensures ok ==> fresh(lg) && lg.Valid() && Layered(lg.Shape())
      ensures ok ==> forall v | 0 <= v < |lg.levels| :: 0 <= lg.levels[v] <= n
    {
      lg := new LevelGraph();
      var radii := Spheres(minDistance, maxDistance, n);
      PollStep(cancelled, old(polls), polls);
      var stop := Poll();
      if stop {
        return false, lg;
      }
      var parts := mesh.faceLoop(gi, c, radii);
      PollStep(cancelled, old(polls), polls);
      stop := Poll();
      if stop {
        return false, lg;
      }
      var g := CombineSound(parts, n + 1);
      PollStep(cancelled, old(polls), polls);
      stop := Poll();
      if stop {
        return false, lg;
      }
      lg := SoundMinor(g, n + 1);
      ok := true;
    }

    /** The body of the ratio loop on a level graph: its counts for a
        minimum area, which retype its edges, then its Reeb graph, which
        sets its counters and accessibility flags; the shape stays as it
        was. */
    static method Ratio(lg: LevelGraph, minArea: real) returns (counts: Counts, reeb: ReebGraph, ghost order: seq<nat>)
      requires lg.Valid() && Layered(lg.Shape())
      modifies lg
      ensures lg.Valid() && lg.Shape() == old(lg.Shape()) && lg.arcs == old(lg.arcs)
      ensures counts == SU(old(lg.Shape()), minArea)
      ensures lg.types == SUTypes(old(lg.Shape()), minArea)
      ensures lg.stable == Swept(lg.Shape(), true, lg.types, STABLE)
      ensures lg.unstable == Swept(lg.Shape(), false, lg.types, UNSTABLE)
      ensures forall e | 0 <= e < |lg.ends| :: lg.edgeAccessible[e] <==> lg.stable[e] != 0 && lg.unstable[e] != 0
      ensures forall v | 0 <= v < |lg.levels| ::
                lg.vertexAccessible[v] <==>
                  exists e | 0 <= e < |lg.ends| :: lg.edgeAccessible[e] && (lg.ends[e].0 == v || lg.ends[e].1 == v)
      ensures fresh(reeb) && reeb.Valid()
      ensures Layered(MinorSpec.Filtered(lg.Shape(), lg.edgeAccessible))
      ensures MinorSpec.Contraction(MinorSpec.Filtered(lg.Shape(), lg.edgeAccessible), lg.vertexAccessible, order, reeb.levels, reeb.edges)
    {
      var s, u := lg.GetSU(minArea);
      counts := (s, u);
      reeb, order := lg.Minor();
    }

    /** The ratio loop over one level graph: a poll, then the counts for the
        ratio's minimum area into slot c, then its Reeb graph; the level
        graph and the Reeb graph are kept when `keep` holds. */
    method RunRatios(lg: LevelGraph, c: nat, ratios: seq<AreaRatio>, cells: seq<seq<Counts>>, keep: bool)
      returns (ok: bool, cells': seq<seq<Counts>>)
      requires lg.Valid() && Layered(lg.Shape()) && lg !in levelGraphs && Displayable(levelGraphs)
      requires |cells| == |ratios| && forall r | 0 <= r < |cells| :: c < |cells[r]|
      modifies this, lg
      ensures Polled(cancelled, ok, old(polls), polls) && su == old(su)
      ensures lg.Valid() && lg.Shape() == old(lg.Shape())
      ensures |levelGraphs| - old(|levelGraphs|) == |reebGraphs| - old(|reebGraphs|)
      ensures Displayable(levelGraphs)
      ensures ok ==> |levelGraphs| == old(|levelGraphs|) + (if keep then |ratios| else 0)
      ensures ok ==> cells' == FillColumn(cells, c, old(lg.Shape()), mesh.surfaceArea, ratios)
    {
      ghost var sk := lg.Shape();
      cells' := cells;
      for r := 0 to |ratios|
        invariant lg.Valid() && lg.Shape() == sk
        invariant Polled(cancelled, true, old(polls), polls) && su == old(su)
        invariant |cells'| == |ratios|
        invariant forall r' | 0 <= r' < |cells'| ::
                    cells'[r'] == if r' < r then cells[r'][c := SU(sk, MinArea(mesh.surfaceArea, ratios[r'].value))] else cells[r']
        invariant |levelGraphs| - old(|levelGraphs|) == |reebGraphs| - old(|reebGraphs|)
        invariant |levelGraphs| == old(|levelGraphs|) + (if keep then r else 0)
        invariant lg !in levelGraphs && Displayable(levelGraphs)
      {
        PollStep(cancelled, old(polls), polls);
        var stop := Poll();
        if stop {
          return false, cells';
        }
        var su, reeb;
        ghost var order;
        su, reeb, order := Ratio(lg, MinArea(mesh.surfaceArea, ratios[r].value));
        cells' := cells'[r := cells'[r][c := su]];
        if keep {
          Keep(lg, reeb);
        }
      }
      ok := true;
    }

    /** A single-center generator keeps a copy of the level graph and the
        Reeb graph of each area ratio for display. */
    method Keep(lg: LevelGraph, reeb: ReebGraph)
      requires lg.Valid() && Layered(lg.Shape()) && lg !in levelGraphs && Displayable(levelGraphs)
      modifies this
      ensures polls == old(polls) && su == old(su)
      ensures |levelGraphs| == old(|levelGraphs|) + 1 && |reebGraphs| == old(|reebGraphs|) + 1
      ensures lg !in levelGraphs && Displayable(levelGraphs)
    {
      var copy := lg.Clone();
      levelGraphs := levelGraphs + [copy];
      reebGraphs := reebGraphs + [reeb];
    }

    /** Level count l for center c: the sweep, then the ratio loop writing
        slot c of every cell of the level count; graphs are kept when the
        generator has a single center. */
    method RunLevel(gi: nat, cs: CenterSphere, k: nat, c: nat, l: nat, minDistance: real, maxDistance: real, m: Matrix)
      returns (ok: bool, m': Matrix, ghost sk: Skeleton)
      requires Shaped(m, cs, k) && c < k && l < |cs.next| && cs.next[l].value >= 0 && SoundMesh(mesh)
      requires Displayable(levelGraphs)
      modifies this
      ensures Polled(cancelled, ok, old(polls), polls) && su == old(su)
      ensures |levelGraphs| - old(|levelGraphs|) == |reebGraphs| - old(|reebGraphs|)
      ensures Displayable(levelGraphs)
      ensures ok ==> |levelGraphs| == old(|levelGraphs|) + (if k == 1 then |cs.next[l].next| else 0)
      ensures ok ==> SweptLevel(sk, cs.next[l]) && m' == m[l := FillColumn(m[l], c, sk, mesh.surfaceArea, cs.next[l].next)]
    {
      m', sk := m, Skeleton([], [], []);
      var level := cs.next[l];
      var swept, lg := Sweep(gi, c, level.value, minDistance, maxDistance);
      if !swept {
        return false, m', sk;
      }
      sk := lg.Shape();
      var cells;
      ok, cells := RunRatios(lg, c, level.next, m[l], k == 1);
      if ok {
        m' := m[l := cells];
      }
    }

    /** All level counts for center c, then the poll after them. */
    method RunCenter(gi: nat, cs: CenterSphere, k: nat, c: nat, m: Matrix) returns (ok: bool, m': Matrix, ghost row: seq<Skeleton>)
      requires Shaped(m, cs, k) && c < k && SoundMesh(mesh)
      requires forall l | 0 <= l < |cs.next| :: cs.next[l].value >= 0
      requires Displayable(levelGraphs)
      modifies this
      ensures Polled(cancelled, ok, old(polls), polls) && su == old(su)
      ensures |levelGraphs| - old(|levelGraphs|) == |reebGraphs| - old(|reebGraphs|)
      ensures Displayable(levelGraphs)
      ensures ok ==> |levelGraphs| == old(|levelGraphs|) + (if k == 1 then RatioCount(cs.next) else 0)
      ensures ok ==> Shaped(m', cs, k) && |row| == |cs.next| && ColumnFilled(m', cs, k, c, row, mesh.surfaceArea) && Others(m, m', cs, k, c)
    {
      var (minDistance, maxDistance) := mesh.distances(gi, c);
      m', row := m, [];
      for l := 0 to |cs.next|
        invariant Shaped(m', cs, k) && |row| == l && ColumnFilled(m', cs, k, c, row, mesh.surfaceArea) && Others(m, m', cs, k, c)
        invariant Polled(cancelled, true, old(polls), polls) && su == old(su)
        invariant |levelGraphs| - old(|levelGraphs|) == |reebGraphs| - old(|reebGraphs|)
        invariant Displayable(levelGraphs)
        invariant |levelGraphs| == old(|levelGraphs|) + (if k == 1 then RatioCount(cs.next[..l]) else 0)
      {
        ghost var before := polls;
        var done, next, sk := RunLevel(gi, cs, k, c, l, minDistance, maxDistance, m');
        PollsThen(cancelled, done, old(polls), before, polls);
        if !done {
          return false, m', row;
        }
        ColumnStep(m, m', cs, k, c, row, mesh.surfaceArea, sk);
        m', row := next, row + [sk];
      }
      assert cs.next[..|cs.next|] == cs.next;
      PollStep(cancelled, old(polls), polls);
      var stop := Poll();
      ok := !stop;
    }
  
    /** The center loop of one generator over a fresh results matrix;
        false as soon as a poll answers yes. */
    method RunCenters(gi: nat, cs: CenterSphere, k: nat) returns (ok: bool, results: Matrix, ghost shapes: seq<seq<Skeleton>>)
      requires SoundMesh(mesh)
      requires forall l | 0 <= l < |cs.next| :: cs.next[l].value >= 0
      requires Displayable(levelGraphs)
      modifies this
      ensures Polled(cancelled, ok, old(polls), polls) && su == old(su)
      ensures |levelGraphs| - old(|levelGraphs|) == |reebGraphs| - old(|reebGraphs|)
      ensures Displayable(levelGraphs)
      ensures ok ==> |levelGraphs| == old(|levelGraphs|) + (if k == 1 then RatioCount(cs.next) else 0)
      ensures ok ==> Shaped(results, cs, k) && Filled(results, cs, k, shapes, mesh.surfaceArea, k)
    {
      results := NewMatrix(cs, k);
      shapes := [];
      for c := 0 to k
        invariant Shaped(results, cs, k) && Filled(results, cs, k, shapes, mesh.surfaceArea, c)
        invariant Polled(cancelled, true, old(polls), polls) && su == old(su)
        invariant |levelGraphs| - old(|levelGraphs|) == |reebGraphs| - old(|reebGraphs|)
        invariant Displayable(levelGraphs)
        invariant |levelGraphs| == old(|levelGraphs|) + (if k == 1 then c * RatioCount(cs.next) else 0)
      {
        ghost var before := polls;
        var done, next, row := RunCenter(gi, cs, k, c, results);
        PollsThen(cancelled, done, old(polls), before, polls);
        if !done {
          return false, results, shapes;
        }
        FilledStep(results, next, cs, k, shapes, mesh.surfaceArea, row);
        results, shapes := next, shapes + [row];
      }
      ok := true;
    }

    /** One generator: its results matrix, the center loop, then the
        aggregation loops appending the generator's pairs, then a poll. */
    method RunGenerator(gi: nat, cs: CenterSphere) returns (ok: bool, reported: bool, ghost m: Matrix, ghost shapes: seq<seq<Skeleton>>)
      requires cs.value.count >= 1 && SoundMesh(mesh)
      requires forall l | 0 <= l < |cs.next| :: cs.next[l].value >= 0
      requires Displayable(levelGraphs)
      modifies this
      ensures Polled(cancelled, ok, old(polls), polls)
      ensures ok ==> reported
      ensures reported ==> Computed(m, cs, shapes, mesh.surfaceArea) && su == old(su) + Pairs(Reported(cs, m, CenterCount(cs.value)))
      ensures !reported ==> su == old(su)
      ensures |levelGraphs| - old(|levelGraphs|) == |reebGraphs| - old(|reebGraphs|)
      ensures Displayable(levelGraphs)
      ensures ok ==> |levelGraphs| == old(|levelGraphs|) + (if cs.value.count == 1 then RatioCount(cs.next) else 0)
    {
      var k := CenterCount(cs.value);
      var done, results;
      done, results, shapes := RunCenters(gi, cs, k);
      if !done {
        return false, false, results, shapes;
      }
      var rs := Collect(cs, results, k);
      su := su + Pairs(rs);
      m, reported := results, true;
      PollStep(cancelled, old(polls), polls);
      var stop := Poll();
      ok := !stop;
    }

    /** `run`: the outputs emptied, then every generator in order; false as
        soon as a poll answers yes. The pairs of the generators finished
        before that stay. */
    method Run(parameters: Parameters) returns (ok: bool, ghost done: nat, ghost matrices: seq<Matrix>, ghost shapes: seq<seq<seq<Skeleton>>>)
      requires Runnable(parameters) && SoundMesh(mesh)
      modifies this
      ensures Polled(cancelled, ok, old(polls), polls)
      ensures done <= |parameters| && (ok ==> done == |parameters|)
      ensures AllComputed(parameters[..done], matrices, shapes, mesh.surfaceArea)
      ensures su == Pairs(AllReports(parameters[..done], matrices))
      ensures |levelGraphs| == |reebGraphs|
      ensures ok ==> |levelGraphs| == Retained(parameters)
      ensures Displayable(levelGraphs)
    {
      su, levelGraphs, reebGraphs := [], [], [];
      done, matrices, shapes := 0, [], [];
      for gi := 0 to |parameters|
        invariant done == gi && AllComputed(parameters[..gi], matrices, shapes, mesh.surfaceArea)
        invariant su == Pairs(AllReports(parameters[..gi], matrices))
        invariant Polled(cancelled, true, old(polls), polls)
        invariant |levelGraphs| == |reebGraphs| && |levelGraphs| == Retained(parameters[..gi])
        invariant Displayable(levelGraphs)
      {
        ghost var before := polls;
        var finished, reported, m, sh := RunGenerator(gi, parameters[gi]);
        PollsThen(cancelled, finished, old(polls), before, polls);
        if reported {
          ReportsStep(parameters, matrices, shapes, m, sh, gi, mesh.surfaceArea);
          done, matrices, shapes := gi + 1, matrices + [m], shapes + [sh];
        }
        if !finished {
          return false, done, matrices, shapes;
        }
      }
      assert parameters[..|parameters|] == parameters;
      ok := true;
    }
  }

  lemma ReportsStep(ps: Parameters, ms: seq<Matrix>, shapes: seq<seq<seq<Skeleton>>>, m: Matrix, sh: seq<seq<Skeleton>>, i: nat, area: real)
    requires i < |ps| && AllComputed(ps[..i], ms, shapes, area) && Computed(m, ps[i], sh, area)
    ensures AllComputed(ps[..i + 1], ms + [m], shapes + [sh], area)
    ensures Reportable(ps[..i + 1], ms + [m]) && Reportable(ps[..i], ms)
    ensures Pairs(AllReports(ps[..i + 1], ms + [m])) == Pairs(AllReports(ps[..i], ms)) + Pairs(Reported(ps[i], m, CenterCount(ps[i].value)))
    ensures Retained(ps[..i + 1]) == Retained(ps[..i]) + (if ps[i].value.count == 1 then RatioCount(ps[i].next) else 0)
  {
    var ps', ms' := ps[..i + 1], ms + [m];
    PairsConcat(AllReports(ps[..i], ms), Reported(ps[i], m, CenterCount(ps[i].value)));
    assert ps'[..i] == ps[..i];
    assert ms'[..i] == ms;
    forall j | 0 <= j < i + 1
      ensures Computed(ms'[j], ps'[j], (shapes + [sh])[j], area)
    {
      if j < i {
        assert ms'[j] == ms[j] && ps'[j] == ps[..i][j] && (shapes + [sh])[j] == shapes[j];
      }
    }
  }
}
