/**
 * The contraction at the end of `minor` (levelgraph.cpp): starting from the
 * junctions of the filtered graph, follow every out-edge along its chain,
 * give the vertex at the chain's end a Reeb vertex (queueing it when it is
 * new and has both in- and out-edges) and add the Reeb edge to it. The
 * state is the Reeb graph under construction, the map `reeb_vertices`, the
 * queue of vertices still to expand and, as ghost state, `order`: the
 * level-graph vertex of every Reeb vertex, by Reeb vertex number.
 */
module Contractions {
  import opened LevelSpec
  import opened LevelFacts
  import opened MinorSpec
  import opened ReebGraphs

  /** `reeb_vertices` and the Reeb vertex numbering agree: `order` lists
      the keys by Reeb vertex, and the levels are those of the contraction. */
  ghost predicate Numbering(f: Skeleton, vacc: seq<bool>, reebOf: map<nat, nat>, order: seq<nat>, levels: seq<real>)
  {
    && |levels| == |order|
    && (forall i | 0 <= i < |order| ::
          order[i] < |f.levels| && order[i] in reebOf && reebOf[order[i]] == i
          && levels[i] == ReebLevel(f, vacc, order[i]))
    && (forall v | v in reebOf :: reebOf[v] < |order| && order[reebOf[v]] == v)
  }

  /** Every Reeb edge follows an out-edge and the chain behind it. */
  ghost predicate SoundEdges(f: Skeleton, order: seq<nat>, edges: seq<Edge>)
    requires Layered(f)
  {
    forall k | 0 <= k < |edges| ::
      edges[k].0 < |order| && edges[k].1 < |order| && order[edges[k].0] < |f.levels|
      && ReebStep(f, order[edges[k].0], order[edges[k].1])
  }

  /** Every out-edge of v yields its Reeb edge. */
  ghost predicate Expanded(f: Skeleton, reebOf: map<nat, nat>, edges: seq<Edge>, v: nat)
    requires Layered(f) && v < |f.levels| && v in reebOf
  {
    forall e | e in OutEdges(f, true, v) ::
      ChainEnd(f, Tgt(f, true, e)) in reebOf && (reebOf[v], reebOf[ChainEnd(f, Tgt(f, true, e))]) in edges
  }

  /** Every Reeb vertex other than the junctions' is the target of a Reeb edge. */
  ghost predicate Reached(f: Skeleton, vacc: seq<bool>, order: seq<nat>, edges: seq<Edge>)
  {
    forall i | 0 <= i < |order| :: IsJunction(f, vacc, order[i]) || exists k | 0 <= k < |edges| :: edges[k].1 == i
  }

  /** Queueing the vertices of a + b queues those of a, then those of b. */
  lemma {:induction false} QueuedAppend(f: Skeleton, a: seq<nat>, b: seq<nat>)
    ensures Queued(f, a + b) == Queued(f, a) + Queued(f, b)
    decreases |b|
  {
    if |b| == 0 {
      assert a + b == a;
    } else {
      var b' := b[..|b| - 1];
      QueuedAppend(f, a, b');
      assert (a + b)[..|a + b| - 1] == a + b';
    }
  }

  /** How the state of `minor` grows: new Reeb vertices are numbered after
      the old ones, each for a vertex with an in-edge; new Reeb edges are
      appended; the queue gains exactly the new vertices that get queued. */
  ghost predicate Grows(f: Skeleton, order: seq<nat>, queue: seq<nat>, edges: seq<Edge>,
                        order': seq<nat>, queue': seq<nat>, edges': seq<Edge>)
  {
    && |order| <= |order'| && order'[..|order|] == order
    && |edges| <= |edges'| && edges'[..|edges|] == edges
    && queue' == queue + Queued(f, order'[|order|..])
    && forall i | |order| <= i < |order'| :: InDegree(f, true, order'[i]) > 0
  }

  /** Prefixes compose. */
  lemma PrefixTrans<T>(a: seq<T>, b: seq<T>, c: seq<T>)
    requires |a| <= |b| && b[..|a|] == a && |b| <= |c| && c[..|b|] == b
    ensures c[..|a|] == a && c[|a|..] == b[|a|..] + c[|b|..]
    ensures forall i | 0 <= i < |b| :: c[i] == b[i]
  {
    assert c[..|a|] == c[..|b|][..|a|];
    forall i | 0 <= i < |b|
      ensures c[i] == b[i]
    {
      assert c[i] == c[..|b|][i];
    }
  }

  lemma GrowsTrans(f: Skeleton, o1: seq<nat>, q1: seq<nat>, e1: seq<Edge>, o2: seq<nat>, q2: seq<nat>, e2: seq<Edge>,
                   o3: seq<nat>, q3: seq<nat>, e3: seq<Edge>)
    requires Grows(f, o1, q1, e1, o2, q2, e2) && Grows(f, o2, q2, e2, o3, q3, e3)
    ensures Grows(f, o1, q1, e1, o3, q3, e3)
  {
    PrefixTrans(o1, o2, o3);
    PrefixTrans(e1, e2, e3);
    calc {
      q3;
      q2 + Queued(f, o3[|o2|..]);
      (q1 + Queued(f, o2[|o1|..])) + Queued(f, o3[|o2|..]);
      q1 + (Queued(f, o2[|o1|..]) + Queued(f, o3[|o2|..]));
      { QueuedAppend(f, o2[|o1|..], o3[|o2|..]); }
      q1 + Queued(f, o2[|o1|..] + o3[|o2|..]);
      q1 + Queued(f, o3[|o1|..]);
    }
    forall i | |o1| <= i < |o3|
      ensures InDegree(f, true, o3[i]) > 0
    {
      if i < |o2| {
        assert o3[i] == o2[i];
      }
    }
  }

  /** A numbering that grows keeps every old key and its Reeb vertex. */
  lemma KeysKept(f: Skeleton, vacc: seq<bool>, reebOf: map<nat, nat>, order: seq<nat>, levels: seq<real>,
                 reebOf': map<nat, nat>, order': seq<nat>, levels': seq<real>)
    requires Numbering(f, vacc, reebOf, order, levels) && Numbering(f, vacc, reebOf', order', levels')
    requires |order| <= |order'| && order'[..|order|] == order
    ensures forall v | v in reebOf :: v in reebOf' && reebOf'[v] == reebOf[v]
  {
    forall v | v in reebOf
      ensures v in reebOf' && reebOf'[v] == reebOf[v]
    {
      assert order'[reebOf[v]] == order'[..|order|][reebOf[v]];
    }
  }

  /** The out-edge e of v has yielded its Reeb edge. */
  ghost predicate Linked(f: Skeleton, reebOf: map<nat, nat>, edges: seq<Edge>, v: nat, e: nat)
    requires Layered(f)
  {
    && e < |f.ends| && Tgt(f, true, e) < |f.levels| && v in reebOf
    && ChainEnd(f, Tgt(f, true, e)) in reebOf
    && (reebOf[v], reebOf[ChainEnd(f, Tgt(f, true, e))]) in edges
  }

  /** A linked edge stays linked while keys are kept and edges appended. */
  lemma LinkedKept(f: Skeleton, reebOf: map<nat, nat>, edges: seq<Edge>, reebOf': map<nat, nat>, edges': seq<Edge>, v: nat, e: nat)
    requires Layered(f) && Linked(f, reebOf, edges, v, e)
    requires forall u | u in reebOf :: u in reebOf' && reebOf'[u] == reebOf[u]
    requires |edges| <= |edges'| && edges'[..|edges|] == edges
    ensures Linked(f, reebOf', edges', v, e)
  {
    var x := (reebOf[v], reebOf[ChainEnd(f, Tgt(f, true, e))]);
    var k :| 0 <= k < |edges| && edges[k] == x;
    assert edges'[k] == edges'[..|edges|][k];
  }

  /** Expanded vertices stay expanded while keys are kept and edges appended. */
  lemma ExpandedKept(f: Skeleton, reebOf: map<nat, nat>, edges: seq<Edge>, reebOf': map<nat, nat>, edges': seq<Edge>, v: nat)
    requires Layered(f) && v < |f.levels| && v in reebOf && Expanded(f, reebOf, edges, v)
    requires forall u | u in reebOf :: u in reebOf' && reebOf'[u] == reebOf[u]
    requires |edges| <= |edges'| && edges'[..|edges|] == edges
    ensures Expanded(f, reebOf', edges', v)
  {
    forall e | e in OutEdges(f, true, v)
      ensures ChainEnd(f, Tgt(f, true, e)) in reebOf'
      ensures (reebOf'[v], reebOf'[ChainEnd(f, Tgt(f, true, e))]) in edges'
    {
      var x := (reebOf[v], reebOf[ChainEnd(f, Tgt(f, true, e))]);
      var k :| 0 <= k < |edges| && edges[k] == x;
      assert edges'[k] == edges'[..|edges|][k];
    }
  }

  /** The walk of `minor` along a chain: from v, follow the only out-edge
      while the vertex has exactly one in-edge and one out-edge. */
  method WalkChain(f: Skeleton, v: nat) returns (w: nat)
    requires Layered(f) && v < |f.levels|
    ensures w == ChainEnd(f, v)
  {
    w := v;
    while InChain(f, w)
      invariant w < |f.levels| && ChainEnd(f, w) == ChainEnd(f, v)
      decreases Top(f.levels) - Rank(f, true, w)
    {
      var e := OutEdges(f, true, w)[0];
      RankGrows(f, true, e);
      w := Tgt(f, true, e);
    }
  }

  /** A new Reeb vertex for w, numbered next, keeps the numbering. */
  lemma NumberingAdd(f: Skeleton, vacc: seq<bool>, reebOf: map<nat, nat>, order: seq<nat>,
                     levels: seq<real>, w: nat)
    requires Numbering(f, vacc, reebOf, order, levels)
    requires w < |f.levels| && w !in reebOf
    ensures Numbering(f, vacc, reebOf[w := |order|], order + [w], levels + [ReebLevel(f, vacc, w)])
  {
    var order' := order + [w];
    assert forall i | 0 <= i < |order| :: order'[i] == order[i];
  }

  /** An appended Reeb edge that follows a chain keeps the edges sound and
      every non-junction Reeb vertex reached. */
  lemma EdgesAdd(f: Skeleton, vacc: seq<bool>, order: seq<nat>, order': seq<nat>, edges: seq<Edge>, a: nat, b: nat)
    requires Layered(f)
    requires SoundEdges(f, order, edges) && Reached(f, vacc, order, edges)
    requires |order| <= |order'| <= |order| + 1 && order'[..|order|] == order
    requires |order'| == |order| + 1 ==> b == |order|
    requires a < |order'| && b < |order'| && order'[a] < |f.levels| && ReebStep(f, order'[a], order'[b])
    ensures SoundEdges(f, order', edges + [(a, b)]) && Reached(f, vacc, order', edges + [(a, b)])
  {
    var edges' := edges + [(a, b)];
    assert forall i | 0 <= i < |order| :: order'[i] == order[i];
    forall i | 0 <= i < |order'|
      ensures IsJunction(f, vacc, order'[i]) || exists k | 0 <= k < |edges'| :: edges'[k].1 == i
    {
      if i == |order| {
        assert edges'[|edges|].1 == i;
      } else if !IsJunction(f, vacc, order'[i]) {
        var k :| 0 <= k < |edges| && edges[k].1 == i;
        assert edges'[k].1 == i;
      }
    }
  }

  /** The lookup of `minor` for a chain end w: if w has no Reeb vertex yet,
      add one, numbered next, at w's Reeb level, and queue w when it has
      both in- and out-edges. */
  method FindOrAddVertex(f: Skeleton, vacc: seq<bool>, result: ReebGraph, reebOf: map<nat, nat>,
                         queue: seq<nat>, w: nat, ghost order: seq<nat>)
    returns (reebOf': map<nat, nat>, queue': seq<nat>, ghost order': seq<nat>)
    requires w < |f.levels| && InDegree(f, true, w) > 0
    requires result.Valid() && Numbering(f, vacc, reebOf, order, result.levels)
    modifies result
    ensures result.Valid() && Numbering(f, vacc, reebOf', order', result.levels)
    ensures result.edges == old(result.edges)
    ensures w in reebOf'
    ensures w in reebOf ==> reebOf' == reebOf && order' == order
    ensures w !in reebOf ==> reebOf' == reebOf[w := |order|] && order' == order + [w]
    ensures Grows(f, order, queue, result.edges, order', queue', result.edges)
  {
    reebOf', queue', order' := reebOf, queue, order;
    if w !in reebOf {
      var level := f.levels[w] as real - (if OutDegree(f, true, w) == 0 then 1.0 else 0.5);
      NumberingAdd(f, vacc, reebOf, order, result.levels, w);
      var id := result.AddVertex(level);
      reebOf' := reebOf[w := id];
      order' := order + [w];
      if InDegree(f, true, w) != 0 && OutDegree(f, true, w) != 0 {
        queue' := queue + [w];
      }
      assert order'[|order|..] == [w];
      assert Queued(f, [w]) == if InDegree(f, true, w) != 0 && OutDegree(f, true, w) != 0 then [w] else [];
    } else {
      assert order'[|order|..] == [];
      assert queue' == queue + [];
    }
  }

  /** One out-edge e of the vertex j in `minor`: walk the chain behind it,
      find or add the Reeb vertex of its end w and add the Reeb edge j -> w. */
  method LinkEdge(f: Skeleton, vacc: seq<bool>, result: ReebGraph, reebOf: map<nat, nat>,
                  queue: seq<nat>, j: nat, e: nat, ghost order: seq<nat>)
    returns (reebOf': map<nat, nat>, queue': seq<nat>, ghost order': seq<nat>)
    requires Layered(f) && |vacc| == |f.levels| && j < |f.levels| && j in reebOf
    requires e in OutEdges(f, true, j)
    requires result.Valid() && Numbering(f, vacc, reebOf, order, result.levels)
    requires SoundEdges(f, order, result.edges) && Reached(f, vacc, order, result.edges)
    modifies result
    ensures result.Valid() && Numbering(f, vacc, reebOf', order', result.levels)
    ensures SoundEdges(f, order', result.edges) && Reached(f, vacc, order', result.edges)
    ensures Grows(f, order, queue, old(result.edges), order', queue', result.edges)
    ensures j in reebOf' && ChainEnd(f, Tgt(f, true, e)) in reebOf'
    ensures result.edges == old(result.edges) + [(reebOf'[j], reebOf'[ChainEnd(f, Tgt(f, true, e))])]
  {
    var w := WalkChain(f, Tgt(f, true, e));
    ChainEndHasInEdge(f, e);
    ghost var edges := result.edges;
    reebOf', queue', order' := FindOrAddVertex(f, vacc, result, reebOf, queue, w, order);
    assert ReebStep(f, order'[reebOf'[j]], order'[reebOf'[w]]);
    EdgesAdd(f, vacc, order, order', edges, reebOf'[j], reebOf'[w]);
    ghost var levels := result.levels;
    var _ := result.AddEdge(reebOf'[j], reebOf'[w]);
    assert result.levels == levels;
    assert result.edges[..|edges|] == edges;
  }

  /** The bookkeeping after one edge of ExpandJunction's loop: the state
      still grows from the start of the turn, and the first k + 1 out-edges
      of j are linked. */
  lemma LinkStep(f: Skeleton, vacc: seq<bool>, order: seq<nat>, queue: seq<nat>, edges: seq<Edge>,
                 reebOf0: map<nat, nat>, queue0: seq<nat>, order0: seq<nat>, levels0: seq<real>, edges0: seq<Edge>,
                 reebOf1: map<nat, nat>, queue1: seq<nat>, order1: seq<nat>, levels1: seq<real>, edges1: seq<Edge>,
                 j: nat, outs: seq<nat>, k: nat)
    requires Layered(f) && k < |outs| && outs[k] < |f.ends| && Tgt(f, true, outs[k]) < |f.levels|
    requires Numbering(f, vacc, reebOf0, order0, levels0) && Numbering(f, vacc, reebOf1, order1, levels1)
    requires Grows(f, order, queue, edges, order0, queue0, edges0)
    requires Grows(f, order0, queue0, edges0, order1, queue1, edges1)
    requires forall i | 0 <= i < k :: Linked(f, reebOf0, edges0, j, outs[i])
    requires j in reebOf1 && ChainEnd(f, Tgt(f, true, outs[k])) in reebOf1
    requires edges1 == edges0 + [(reebOf1[j], reebOf1[ChainEnd(f, Tgt(f, true, outs[k]))])]
    ensures Grows(f, order, queue, edges, order1, queue1, edges1)
    ensures forall i | 0 <= i < k + 1 :: Linked(f, reebOf1, edges1, j, outs[i])
  {
    KeysKept(f, vacc, reebOf0, order0, levels0, reebOf1, order1, levels1);
    GrowsTrans(f, order, queue, edges, order0, queue0, edges0, order1, queue1, edges1);
    forall i | 0 <= i < k + 1
      ensures Linked(f, reebOf1, edges1, j, outs[i])
    {
      if i < k {
        LinkedKept(f, reebOf0, edges0, reebOf1, edges1, j, outs[i]);
      } else {
        assert edges1[|edges0|] == (reebOf1[j], reebOf1[ChainEnd(f, Tgt(f, true, outs[k]))]);
      }
    }
  }

  /** Under a numbering, a vertex's position is its Reeb vertex. */
  lemma IndexNumbered(f: Skeleton, vacc: seq<bool>, reebOf: map<nat, nat>, order: seq<nat>, levels: seq<real>, v: nat)
    requires Numbering(f, vacc, reebOf, order, levels) && v in reebOf
    ensures v in order && IndexIn(order, v) == reebOf[v]
  {
    assert order[reebOf[v]] == v;
  }

  /** The Reeb edges of the first k out-edges of v do not change while the
      numbering grows, once v and the ends of their chains are numbered. */
  lemma {:induction false} UpToKept(f: Skeleton, o0: seq<nat>, o1: seq<nat>, v: nat, k: nat)
    requires Layered(f) && k <= OutDegree(f, true, v)
    requires |o0| <= |o1| && o1[..|o0|] == o0 && v in o0
    requires forall i | 0 <= i < k :: ChainAfter(f, OutEdges(f, true, v)[i]) in o0
    ensures ReebEdgesUpTo(f, o1, v, k) == ReebEdgesUpTo(f, o0, v, k)
  {
    if k > 0 {
      UpToKept(f, o0, o1, v, k - 1);
      IndexInPrefix(o0, o1, v);
      IndexInPrefix(o0, o1, ChainAfter(f, OutEdges(f, true, v)[k - 1]));
    }
  }

  /** The bookkeeping of ExpandJunction's edge list after one more out-edge. */
  lemma UpToStep(f: Skeleton, vacc: seq<bool>, start: seq<Edge>,
                 reebOf0: map<nat, nat>, order0: seq<nat>, levels0: seq<real>, edges0: seq<Edge>,
                 reebOf1: map<nat, nat>, order1: seq<nat>, levels1: seq<real>, edges1: seq<Edge>,
                 j: nat, k: nat)
    requires Layered(f) && k < OutDegree(f, true, j)
    requires Numbering(f, vacc, reebOf0, order0, levels0) && Numbering(f, vacc, reebOf1, order1, levels1)
    requires |order0| <= |order1| && order1[..|order0|] == order0
    requires j in reebOf0 && forall i | 0 <= i < k :: Linked(f, reebOf0, edges0, j, OutEdges(f, true, j)[i])
    requires LinkedSoFar(f, start, order0, edges0, j, k)
    requires j in reebOf1 && ChainAfter(f, OutEdges(f, true, j)[k]) in reebOf1
    requires edges1 == edges0 + [(reebOf1[j], reebOf1[ChainAfter(f, OutEdges(f, true, j)[k])])]
    ensures LinkedSoFar(f, start, order1, edges1, j, k + 1)
  {
    var outs := OutEdges(f, true, j);
    IndexNumbered(f, vacc, reebOf0, order0, levels0, j);
    forall i | 0 <= i < k
      ensures ChainAfter(f, outs[i]) in order0
    {
      assert Linked(f, reebOf0, edges0, j, outs[i]);
      IndexNumbered(f, vacc, reebOf0, order0, levels0, ChainAfter(f, outs[i]));
    }
    UpToKept(f, order0, order1, j, k);
    IndexNumbered(f, vacc, reebOf1, order1, levels1, j);
    IndexNumbered(f, vacc, reebOf1, order1, levels1, ChainAfter(f, outs[k]));
  }

  /** Link the k-th out-edge of j, once the ones before it are linked. */
  method LinkNext(f: Skeleton, vacc: seq<bool>, result: ReebGraph, reebOf: map<nat, nat>, queue: seq<nat>,
                  j: nat, k: nat, ghost order0: seq<nat>, ghost queue0: seq<nat>, ghost start: seq<Edge>,
                  ghost order: seq<nat>)
    returns (reebOf': map<nat, nat>, queue': seq<nat>, ghost order': seq<nat>)
    requires Layered(f) && |vacc| == |f.levels| && j < |f.levels| && j in reebOf && k < OutDegree(f, true, j)
    requires result.Valid() && Numbering(f, vacc, reebOf, order, result.levels)
    requires SoundEdges(f, order, result.edges) && Reached(f, vacc, order, result.edges)
    requires Grows(f, order0, queue0, start, order, queue, result.edges)
    requires forall i | 0 <= i < k :: Linked(f, reebOf, result.edges, j, OutEdges(f, true, j)[i])
    requires LinkedSoFar(f, start, order, result.edges, j, k)
    modifies result
    ensures result.Valid() && Numbering(f, vacc, reebOf', order', result.levels)
    ensures SoundEdges(f, order', result.edges) && Reached(f, vacc, order', result.edges)
    ensures Grows(f, order0, queue0, start, order', queue', result.edges)
    ensures j in reebOf'
    ensures forall i | 0 <= i < k + 1 :: Linked(f, reebOf', result.edges, j, OutEdges(f, true, j)[i])
    ensures LinkedSoFar(f, start, order', result.edges, j, k + 1)
  {
    var outs := OutEdges(f, true, j);
    ghost var levels, edges := result.levels, result.edges;
    reebOf', queue', order' := LinkEdge(f, vacc, result, reebOf, queue, j, outs[k], order);
    LinkStep(f, vacc, order0, queue0, start, reebOf, queue, order, levels, edges,
             reebOf', queue', order', result.levels, result.edges, j, outs, k);
    UpToStep(f, vacc, start, reebOf, order, levels, edges,
             reebOf', order', result.levels, result.edges, j, k);
  }

  /** One turn of the queue loop of `minor` for the vertex j at its front:
      link every out-edge of j, in order. */
  method ExpandJunction(f: Skeleton, vacc: seq<bool>, result: ReebGraph, reebOf: map<nat, nat>,
                        queue: seq<nat>, j: nat, ghost order: seq<nat>)
    returns (reebOf': map<nat, nat>, queue': seq<nat>, ghost order': seq<nat>)
    requires Layered(f) && |vacc| == |f.levels| && j < |f.levels| && j in reebOf
    requires result.Valid() && Numbering(f, vacc, reebOf, order, result.levels)
    requires SoundEdges(f, order, result.edges) && Reached(f, vacc, order, result.edges)
    modifies result
    ensures result.Valid() && Numbering(f, vacc, reebOf', order', result.levels)
    ensures SoundEdges(f, order', result.edges) && Reached(f, vacc, order', result.edges)
    ensures Grows(f, order, queue, old(result.edges), order', queue', result.edges)
    ensures j in reebOf' && Expanded(f, reebOf', result.edges, j)
    ensures result.edges == old(result.edges) + ReebEdgesOf(f, order', j)
  {
    reebOf', queue', order' := reebOf, queue, order;
    assert order[..|order|] == order && order[|order|..] == [] && queue == queue + [];
    assert result.edges[..|result.edges|] == result.edges;
    assert result.edges + ReebEdgesUpTo(f, order, j, 0) == result.edges;
    var k := 0;
    while k < OutDegree(f, true, j)
      invariant k <= OutDegree(f, true, j)
      invariant result.Valid() && Numbering(f, vacc, reebOf', order', result.levels)
      invariant SoundEdges(f, order', result.edges) && Reached(f, vacc, order', result.edges)
      invariant Grows(f, order, queue, old(result.edges), order', queue', result.edges)
      invariant j in reebOf'
      invariant forall i | 0 <= i < k :: Linked(f, reebOf', result.edges, j, OutEdges(f, true, j)[i])
      invariant LinkedSoFar(f, old(result.edges), order', result.edges, j, k)
    {
      reebOf', queue', order' := LinkNext(f, vacc, result, reebOf', queue', j, k, order, queue, old(result.edges), order');
      k := k + 1;
    }
    LinkedExpanded(f, reebOf', result.edges, j);
  }

  /** A vertex all of whose out-edges are linked is expanded. */
  lemma LinkedExpanded(f: Skeleton, reebOf: map<nat, nat>, edges: seq<Edge>, j: nat)
    requires Layered(f) && j < |f.levels| && j in reebOf
    requires forall i | 0 <= i < OutDegree(f, true, j) :: Linked(f, reebOf, edges, j, OutEdges(f, true, j)[i])
    ensures Expanded(f, reebOf, edges, j)
  {
    var outs := OutEdges(f, true, j);
    forall e | e in outs
      ensures ChainEnd(f, Tgt(f, true, e)) in reebOf
      ensures (reebOf[j], reebOf[ChainEnd(f, Tgt(f, true, e))]) in edges
    {
      var i :| 0 <= i < |outs| && outs[i] == e;
      assert Linked(f, reebOf, edges, j, outs[i]);
    }
  }

  /** A vertex is queued exactly when it is listed and has both an in-edge
      and an out-edge. */
  lemma {:induction false} QueuedMembers(f: Skeleton, vs: seq<nat>, v: nat)
    ensures v in Queued(f, vs) <==> v in vs && InDegree(f, true, v) != 0 && OutDegree(f, true, v) != 0
  {
    if |vs| > 0 {
      QueuedMembers(f, vs[..|vs| - 1], v);
      assert vs == vs[..|vs| - 1] + [vs[|vs| - 1]];
    }
  }

  /** The level-graph vertices that have no Reeb vertex yet. */
  ghost function Unnumbered(f: Skeleton, order: seq<nat>): set<nat>
  {
    set v | 0 <= v < |f.levels| && v !in order
  }

  /** The queue loop terminates: a turn either numbers a new vertex or
      leaves the numbering and shortens the queue. */
  lemma UnnumberedShrinks(f: Skeleton, vacc: seq<bool>, reebOf0: map<nat, nat>, order0: seq<nat>, levels0: seq<real>,
                          reebOf1: map<nat, nat>, order1: seq<nat>, levels1: seq<real>)
    requires Numbering(f, vacc, reebOf0, order0, levels0) && Numbering(f, vacc, reebOf1, order1, levels1)
    requires |order0| <= |order1| && order1[..|order0|] == order0
    ensures |order0| == |order1| ==> order1 == order0
    ensures |order0| < |order1| ==> Unnumbered(f, order1) < Unnumbered(f, order0)
  {
    if |order0| < |order1| {
      var w := order1[|order0|];
      forall i | 0 <= i < |order0|
        ensures order0[i] != w
      {
        assert order1[i] == order1[..|order0|][i];
      }
      assert w in Unnumbered(f, order0);
      forall v | v in order0
        ensures v in order1
      {
        var i :| 0 <= i < |order0| && order0[i] == v;
        assert order1[i] == order1[..|order0|][i];
      }
    } else {
      assert order1 == order1[..|order0|];
    }
  }

  /** The queue after a turn: the front vertex moves to `done` and the
      newly numbered vertices that get queued join the back. */
  lemma Scheduled(f: Skeleton, junctions: seq<nat>, done: seq<nat>, order0: seq<nat>, queue0: seq<nat>,
                  order1: seq<nat>, queue1: seq<nat>)
    requires |junctions| <= |order0| && order0[..|junctions|] == junctions
    requires done + queue0 == junctions + Queued(f, order0[|junctions|..])
    requires |queue0| > 0
    requires |order0| <= |order1| && order1[..|order0|] == order0
    requires queue1 == queue0 + Queued(f, order1[|order0|..])
    ensures |junctions| <= |order1| && order1[..|junctions|] == junctions
    ensures (done + [queue0[0]]) + queue1[1..] == junctions + Queued(f, order1[|junctions|..])
  {
    PrefixTrans(junctions, order0, order1);
    QueuedAppend(f, order0[|junctions|..], order1[|order0|..]);
    QueueTurn(junctions, done, queue0, Queued(f, order0[|junctions|..]), Queued(f, order1[|order0|..]), queue1);
  }

  /** Moving the front of a queue to the list of finished entries while
      appending b at the back. */
  lemma QueueTurn<T>(start: seq<T>, done: seq<T>, queue: seq<T>, a: seq<T>, b: seq<T>, queue': seq<T>)
    requires done + queue == start + a && |queue| > 0 && queue' == queue + b
    ensures (done + [queue[0]]) + queue'[1..] == start + (a + b)
  {
    assert queue'[1..] == queue[1..] + b;
    assert queue == [queue[0]] + queue[1..];
    calc {
      (done + [queue[0]]) + queue'[1..];
      (done + ([queue[0]] + queue[1..])) + b;
      (start + a) + b;
    }
  }

  /** The bookkeeping after one turn of the queue loop: the junctions stay
      first, `done` and the queue still list the junctions and then the
      queued new vertices, every finished vertex is expanded, and the turn
      makes progress. */
  lemma TurnStep(f: Skeleton, vacc: seq<bool>, junctions: seq<nat>, done: seq<nat>,
                 reebOf0: map<nat, nat>, queue0: seq<nat>, order0: seq<nat>, levels0: seq<real>, edges0: seq<Edge>,
                 reebOf1: map<nat, nat>, queue1: seq<nat>, order1: seq<nat>, levels1: seq<real>, edges1: seq<Edge>)
    requires Layered(f)
    requires Numbering(f, vacc, reebOf0, order0, levels0) && Numbering(f, vacc, reebOf1, order1, levels1)
    requires |junctions| <= |order0| && order0[..|junctions|] == junctions
    requires forall i | |junctions| <= i < |order0| :: InDegree(f, true, order0[i]) > 0
    requires done + queue0 == junctions + Queued(f, order0[|junctions|..]) && |queue0| > 0
    requires forall v | v in done :: v < |f.levels| && v in reebOf0 && Expanded(f, reebOf0, edges0, v)
    requires Grows(f, order0, queue0, edges0, order1, queue1, edges1)
    requires queue0[0] < |f.levels| && queue0[0] in reebOf1 && Expanded(f, reebOf1, edges1, queue0[0])
    ensures |junctions| <= |order1| && order1[..|junctions|] == junctions
    ensures forall i | |junctions| <= i < |order1| :: InDegree(f, true, order1[i]) > 0
    ensures (done + [queue0[0]]) + queue1[1..] == junctions + Queued(f, order1[|junctions|..])
    ensures forall v | v in done + [queue0[0]] :: v < |f.levels| && v in reebOf1 && Expanded(f, reebOf1, edges1, v)
    ensures Unnumbered(f, order1) < Unnumbered(f, order0)
            || (Unnumbered(f, order1) == Unnumbered(f, order0) && |queue1| == |queue0|)
  {
    KeysKept(f, vacc, reebOf0, order0, levels0, reebOf1, order1, levels1);
    UnnumberedShrinks(f, vacc, reebOf0, order0, levels0, reebOf1, order1, levels1);
    Scheduled(f, junctions, done, order0, queue0, order1, queue1);
    PrefixTrans(junctions, order0, order1);
    forall i | |junctions| <= i < |order1|
      ensures InDegree(f, true, order1[i]) > 0
    {
      if i < |order0| {
        assert order1[i] == order0[i];
      }
    }
    forall v | v in done
      ensures Expanded(f, reebOf1, edges1, v)
    {
      ExpandedKept(f, reebOf0, edges0, reebOf1, edges1, v);
    }
    if |order0| == |order1| {
      assert order1[|order0|..] == [];
    }
  }

  /** Once the queue is empty, every numbered vertex with an out-edge has
      been taken off the queue: it is a junction or a queued vertex. */
  lemma DoneHas(f: Skeleton, junctions: seq<nat>, order: seq<nat>, done: seq<nat>, i: nat)
    requires |junctions| <= |order| && order[..|junctions|] == junctions
    requires forall i | |junctions| <= i < |order| :: InDegree(f, true, order[i]) > 0
    requires done == junctions + Queued(f, order[|junctions|..])
    requires i < |order| && OutDegree(f, true, order[i]) != 0
    ensures order[i] in done
  {
    var v := order[i];
    if i < |junctions| {
      assert v == order[..|junctions|][i];
    } else {
      var rest := order[|junctions|..];
      assert v == rest[i - |junctions|];
      QueuedMembers(f, rest, v);
    }
  }

  /** The expansion of vs does not change while the numbering grows, once
      the vertices of vs and the ends of their chains are numbered. */
  lemma {:induction false} ExpansionKept(f: Skeleton, vacc: seq<bool>, reebOf: map<nat, nat>, o0: seq<nat>, levels: seq<real>,
                                        edges: seq<Edge>, o1: seq<nat>, vs: seq<nat>)
    requires Layered(f) && Numbering(f, vacc, reebOf, o0, levels)
    requires |o0| <= |o1| && o1[..|o0|] == o0
    requires forall v | v in vs :: v < |f.levels| && v in reebOf && Expanded(f, reebOf, edges, v)
    ensures Expansion(f, o1, vs) == Expansion(f, o0, vs)
    decreases |vs|
  {
    if vs != [] {
      var v := vs[|vs| - 1];
      ExpansionKept(f, vacc, reebOf, o0, levels, edges, o1, vs[..|vs| - 1]);
      IndexNumbered(f, vacc, reebOf, o0, levels, v);
      forall i | 0 <= i < OutDegree(f, true, v)
        ensures ChainAfter(f, OutEdges(f, true, v)[i]) in o0
      {
        assert OutEdges(f, true, v)[i] in OutEdges(f, true, v);
        IndexNumbered(f, vacc, reebOf, o0, levels, ChainAfter(f, OutEdges(f, true, v)[i]));
      }
      UpToKept(f, o0, o1, v, OutDegree(f, true, v));
    }
  }

  /** The edge list after one more turn of the queue loop. */
  lemma ExpansionStep(f: Skeleton, vacc: seq<bool>, reebOf0: map<nat, nat>, order0: seq<nat>, levels0: seq<real>,
                      edges0: seq<Edge>, order1: seq<nat>, edges1: seq<Edge>, done: seq<nat>, j: nat)
    requires Layered(f) && Numbering(f, vacc, reebOf0, order0, levels0)
    requires |order0| <= |order1| && order1[..|order0|] == order0
    requires forall v | v in done :: v < |f.levels| && v in reebOf0 && Expanded(f, reebOf0, edges0, v)
    requires edges0 == Expansion(f, order0, done)
    requires edges1 == edges0 + ReebEdgesOf(f, order1, j)
    ensures edges1 == Expansion(f, order1, done + [j])
  {
    ExpansionKept(f, vacc, reebOf0, order0, levels0, edges0, order1, done);
    var vs := done + [j];
    assert vs[..|vs| - 1] == done && vs[|vs| - 1] == j;
    assert Expansion(f, order1, vs) == Expansion(f, order1, done) + ReebEdgesOf(f, order1, j);
  }

  /** When the queue is empty, the state of `minor` is the contraction. */
  lemma ContractionDone(f: Skeleton, vacc: seq<bool>, reebOf: map<nat, nat>, order: seq<nat>, levels: seq<real>,
                        edges: seq<Edge>, done: seq<nat>)
    requires Layered(f) && |vacc| == |f.levels|
    requires Numbering(f, vacc, reebOf, order, levels)
    requires SoundEdges(f, order, edges) && Reached(f, vacc, order, edges)
    requires var junctions := RootsOf(f, true, vacc, |f.levels|);
             && |junctions| <= |order| && order[..|junctions|] == junctions
             && (forall i | |junctions| <= i < |order| :: InDegree(f, true, order[i]) > 0)
             && done == junctions + Queued(f, order[|junctions|..])
    requires forall v | v in done :: v < |f.levels| && v in reebOf && Expanded(f, reebOf, edges, v)
    requires edges == Expansion(f, order, done)
    ensures Contraction(f, vacc, order, levels, edges)
  {
    var junctions := RootsOf(f, true, vacc, |f.levels|);
    forall i, e | 0 <= i < |order| && e in OutEdges(f, true, order[i])
      ensures exists j | 0 <= j < |order| :: order[j] == ChainEnd(f, Tgt(f, true, e)) && (i, j) in edges
    {
      DoneHas(f, junctions, order, done, i);
      RankGrows(f, true, e);
      var j := reebOf[ChainEnd(f, Tgt(f, true, e))];
      assert order[j] == ChainEnd(f, Tgt(f, true, e)) && (i, j) in edges;
    }
  }

  /** The start of the contraction: a Reeb graph with one vertex per
      junction, at the junction's level, and `reeb_vertices` mapping the
      i-th junction to Reeb vertex i. */
  method NumberJunctions(f: Skeleton, vacc: seq<bool>, junctions: seq<nat>) returns (result: ReebGraph, reebOf: map<nat, nat>)
    requires |vacc| == |f.levels| && junctions == RootsOf(f, true, vacc, |f.levels|)
    ensures fresh(result) && result.Valid() && result.edges == []
    ensures Numbering(f, vacc, reebOf, junctions, result.levels)
  {
    result := new ReebGraph(|junctions|);
    reebOf := map[];
    var i := 0;
    while i < |junctions|
      invariant i <= |junctions| && |result.levels| == |junctions| && result.edges == []
      invariant Numbering(f, vacc, reebOf, junctions[..i], result.levels[..i])
    {
      var v := junctions[i];
      assert v in junctions;
      forall u | u in reebOf
        ensures u != v
      {
        assert u == junctions[..i][reebOf[u]];
      }
      NumberingAdd(f, vacc, reebOf, junctions[..i], result.levels[..i], v);
      ghost var levels := result.levels;
      result.SetLevel(i, f.levels[v] as real);
      reebOf := reebOf[v := i];
      assert junctions[..i + 1] == junctions[..i] + [v];
      assert result.levels[..i + 1] == levels[..i] + [ReebLevel(f, vacc, v)];
      i := i + 1;
    }
    assert junctions[..i] == junctions && result.levels[..i] == result.levels;
  }

  /** `minor`'s contraction of the filtered graph f whose accessible
      vertices are vacc: number the junctions first, at their own levels,
      then expand queued vertices until the queue is empty. */
  method Contract(f: Skeleton, vacc: seq<bool>) returns (result: ReebGraph, ghost order: seq<nat>)
    requires Layered(f) && |vacc| == |f.levels|
    ensures fresh(result) && result.Valid()
    ensures Contraction(f, vacc, order, result.levels, result.edges)
  {
    var junctions := RootsOf(f, true, vacc, |f.levels|);
    var reebOf;
    result, reebOf := NumberJunctions(f, vacc, junctions);
    order := junctions;
    var queue := junctions;
    ghost var done: seq<nat> := [];
    assert order[|junctions|..] == [] && order[..|junctions|] == junctions;
    forall i | 0 <= i < |junctions|
      ensures IsJunction(f, vacc, junctions[i])
    {
      assert junctions[i] in junctions;
    }
    while |queue| > 0
      invariant result.Valid() && Numbering(f, vacc, reebOf, order, result.levels)
      invariant SoundEdges(f, order, result.edges) && Reached(f, vacc, order, result.edges)
      invariant |junctions| <= |order| && order[..|junctions|] == junctions
      invariant forall i | |junctions| <= i < |order| :: InDegree(f, true, order[i]) > 0
      invariant done + queue == junctions + Queued(f, order[|junctions|..])
      invariant forall v | v in done :: v < |f.levels| && v in reebOf && Expanded(f, reebOf, result.edges, v)
      invariant result.edges == Expansion(f, order, done)
      decreases Unnumbered(f, order), |queue|
    {
      var j := queue[0];
      ghost var reebOf0, queue0, order0, levels0, edges0 := reebOf, queue, order, result.levels, result.edges;
      QueueHeadNumbered(f, vacc, reebOf, order, result.levels, junctions, done, queue);
      reebOf, queue, order := ExpandJunction(f, vacc, result, reebOf, queue, j, order);
      ExpansionStep(f, vacc, reebOf0, order0, levels0, edges0, order, result.edges, done, j);
      TurnStep(f, vacc, junctions, done, reebOf0, queue0, order0, levels0, edges0,
               reebOf, queue, order, result.levels, result.edges);
      done := done + [j];
      queue := queue[1..];
    }
    ContractionDone(f, vacc, reebOf, order, result.levels, result.edges, done);
  }

  /** The vertex at the front of the queue has a Reeb vertex. */
  lemma QueueHeadNumbered(f: Skeleton, vacc: seq<bool>, reebOf: map<nat, nat>, order: seq<nat>, levels: seq<real>,
                          junctions: seq<nat>, done: seq<nat>, queue: seq<nat>)
    requires Numbering(f, vacc, reebOf, order, levels)
    requires |junctions| <= |order| && order[..|junctions|] == junctions
    requires done + queue == junctions + Queued(f, order[|junctions|..])
    requires |queue| > 0
    ensures queue[0] < |f.levels| && queue[0] in reebOf
  {
    var v := queue[0];
    assert v in done + queue;
    if v in junctions {
      var i :| 0 <= i < |junctions| && junctions[i] == v;
      assert order[i] == order[..|junctions|][i];
    } else {
      QueuedMembers(f, order[|junctions|..], v);
      var i :| 0 <= i < |order[|junctions|..]| && order[|junctions|..][i] == v;
      assert order[|junctions| + i] == v;
    }
  }
}
