/**
 * The level graph (levelgraph.hpp, levelgraph.cpp): a directed graph whose
 * out-edges form ordered sets, vertices carrying a level and an area, edges
 * carrying the arcs they were built from, a line type, two counters and an
 * accessibility flag. The searches of `get_SU` and the contraction of
 * `minor` are written as methods over the skeleton value; `fwd == false`
 * runs them on the reverse graph.
 */
module LevelGraphs {
  import opened Options
  import opened LevelSpec
  import opened LevelFacts
  import opened MinorSpec
  import opened ReebGraphs
  import opened Contractions

  /** An arc of the subrange partition; only its identity matters here. */
  type Arc = nat

  /** The sequence s padded with d up to length n. */
  function Pad<T>(s: seq<T>, n: nat, d: T): (r: seq<T>)
    ensures |r| == if n <= |s| then |s| else n
    ensures r[..|s|] == s
  {
    if n <= |s| then s else s + seq(n - |s|, _ => d)
  }

  /** The number of vertices an edge s -> t needs. */
  function Need(s: nat, t: nat): nat
  {
    (if s < t then t else s) + 1
  }

  /** The position of x in a sorted edge list, or where it would go. */
  function LowerBound(ends: seq<End>, x: End): (p: nat)
    ensures p <= |ends|
    ensures forall i | 0 <= i < p :: LexLess(ends[i], x)
    ensures Sorted(ends) ==> forall i | p <= i < |ends| :: !LexLess(ends[i], x)
  {
    if |ends| == 0 || !LexLess(ends[0], x) then 0
    else 1 + LowerBound(ends[1..], x)
  }

  /** `subtree_area`: adds v and everything upstream of it to `visited` and
      returns the area of v plus the subtree areas of the sources of its
      in-edges, one term per in-edge. */
  method SubtreeArea(sk: Skeleton, fwd: bool, v: nat, visited: set<nat>) returns (area: real, visited': set<nat>)
    requires Layered(sk) && v < |sk.levels|
    ensures area == SubtreeSum(sk, fwd, v)
    ensures visited' == visited + Upstream(sk, fwd, v)
    decreases Rank(sk, fwd, v)
  {
    visited' := visited + {v};
    area := sk.areas[v];
    var ins := InEdges(sk, fwd, v);
    var i := 0;
    while i < |ins|
      invariant i <= |ins|
      invariant Summed(sk, fwd, v, visited, i, area, visited')
    {
      var u := Src(sk, fwd, ins[i]);
      SummedStep(sk, fwd, v, visited, i, area, visited');
      var a;
      a, visited' := SubtreeArea(sk, fwd, u, visited');
      area := area + a;
      i := i + 1;
    }
    SummedDone(sk, fwd, v, visited, area, visited');
  }

  /** The state of the `subtree_area` loop after i in-edges of v. */
  ghost predicate Summed(sk: Skeleton, fwd: bool, v: nat, visited: set<nat>, i: nat, area: real, seen: set<nat>)
    requires Layered(sk) && v < |sk.levels|
  {
    && i <= InDegree(sk, fwd, v)
    && area == sk.areas[v] + InSum(sk, fwd, v, i)
    && seen == visited + {v} + UpIn(sk, fwd, v, i)
  }

  /** One more in-edge of v adds the subtree of its source, which lies at a
      lower rank. */
  lemma InStep(sk: Skeleton, fwd: bool, v: nat, i: nat)
    requires Layered(sk) && v < |sk.levels| && i < InDegree(sk, fwd, v)
    ensures Src(sk, fwd, InEdges(sk, fwd, v)[i]) < |sk.levels|
    ensures Rank(sk, fwd, Src(sk, fwd, InEdges(sk, fwd, v)[i])) < Rank(sk, fwd, v)
    ensures InSum(sk, fwd, v, i + 1) == InSum(sk, fwd, v, i) + SubtreeSum(sk, fwd, Src(sk, fwd, InEdges(sk, fwd, v)[i]))
    ensures UpIn(sk, fwd, v, i + 1) == UpIn(sk, fwd, v, i) + Upstream(sk, fwd, Src(sk, fwd, InEdges(sk, fwd, v)[i]))
  {
    RankGrows(sk, fwd, InEdges(sk, fwd, v)[i]);
  }

  /** The `subtree_area` loop goes on with one more in-edge of v. */
  lemma SummedStep(sk: Skeleton, fwd: bool, v: nat, visited: set<nat>, i: nat, area: real, seen: set<nat>)
    requires Layered(sk) && v < |sk.levels| && i < InDegree(sk, fwd, v)
    requires Summed(sk, fwd, v, visited, i, area, seen)
    ensures Src(sk, fwd, InEdges(sk, fwd, v)[i]) < |sk.levels|
    ensures Rank(sk, fwd, Src(sk, fwd, InEdges(sk, fwd, v)[i])) < Rank(sk, fwd, v)
    ensures Summed(sk, fwd, v, visited, i + 1, area + SubtreeSum(sk, fwd, Src(sk, fwd, InEdges(sk, fwd, v)[i])),
                   seen + Upstream(sk, fwd, Src(sk, fwd, InEdges(sk, fwd, v)[i])))
  {
    InStep(sk, fwd, v, i);
  }

  /** After the last in-edge the loop holds the subtree of v. */
  lemma SummedDone(sk: Skeleton, fwd: bool, v: nat, visited: set<nat>, area: real, seen: set<nat>)
    requires Layered(sk) && v < |sk.levels|
    requires Summed(sk, fwd, v, visited, InDegree(sk, fwd, v), area, seen)
    ensures area == SubtreeSum(sk, fwd, v) && seen == visited + Upstream(sk, fwd, v)
  {
  }

  /** The walk of `search` from one root: follow the only out-edge while
      there is exactly one, and record the visited set of the first vertex
      whose subtree area reaches `minArea`. */
  method WalkFrom(sk: Skeleton, fwd: bool, minArea: real, root: nat, minAreas: set<set<nat>>)
    returns (minAreas': set<set<nat>>)
    requires Layered(sk) && IsRoot(sk, fwd, root)
    ensures minAreas' == minAreas + RecordedAt(sk, fwd, minArea, root)
  {
    minAreas' := minAreas;
    var v: nat := root;
    while OutDegree(sk, fwd, v) == 1
      invariant v < |sk.levels|
      invariant WalkEnd(sk, fwd, minArea, v) == WalkEnd(sk, fwd, minArea, root)
      invariant minAreas' == minAreas
      decreases Top(sk.levels) - Rank(sk, fwd, v)
    {
      var area, visited := SubtreeArea(sk, fwd, v, {});
      if area >= minArea {
        minAreas' := minAreas' + {visited};
        assert visited == Upstream(sk, fwd, v);
        assert WalkEnd(sk, fwd, minArea, v) == Some(v);
        break;
      }
      var e := OutEdges(sk, fwd, v)[0];
      RankGrows(sk, fwd, e);
      v := Tgt(sk, fwd, e);
    }
    assert OutDegree(sk, fwd, v) != 1 ==> WalkEnd(sk, fwd, minArea, v) == None;
  }

  /** The first loop of `search`: the walks from all vertices without
      in-edges, in vertex order. */
  method CollectMinAreas(sk: Skeleton, fwd: bool, minArea: real) returns (minAreas: set<set<nat>>)
    requires Layered(sk)
    ensures minAreas == Recorded(sk, fwd, minArea)
  {
    minAreas := {};
    var root: nat := 0;
    while root < |sk.levels|
      invariant root <= |sk.levels|
      invariant minAreas == RecordedBelow(sk, fwd, minArea, root)
    {
      RecordedStep(sk, fwd, minArea, root);
      if InDegree(sk, fwd, root) == 0 {
        minAreas := WalkFrom(sk, fwd, minArea, root, minAreas);
      }
      root := root + 1;
    }
  }

  /** The `includes` count of `search`: how many sets of R are subsets of s1. */
  method CountIncluded(R: set<set<nat>>, s1: set<nat>) returns (includes: nat)
    ensures includes == |set s2 | s2 in R && s2 <= s1|
  {
    includes := 0;
    var rest := R;
    while rest != {}
      invariant rest <= R
      invariant includes == |set s2 | s2 in R - rest && s2 <= s1|
      decreases rest
    {
      var s2 :| s2 in rest;
      ghost var before := set s | s in R - rest && s <= s1;
      if s2 <= s1 {
        includes := includes + 1;
        assert (set s | s in R - (rest - {s2}) && s <= s1) == before + {s2};
      } else {
        assert (set s | s in R - (rest - {s2}) && s <= s1) == before;
      }
      rest := rest - {s2};
    }
    assert R - rest == R;
  }

  /** A member of R includes exactly one member of R (itself) iff it is
      inclusion-minimal in R. */
  lemma IncludesOnce(R: set<set<nat>>, s1: set<nat>)
    requires s1 in R
    ensures |set s2 | s2 in R && s2 <= s1| == 1 <==> s1 in Minimal(R)
  {
    var I := set s2 | s2 in R && s2 <= s1;
    assert s1 in I;
    if s1 in Minimal(R) {
      assert I == {s1};
    }
    if |I| == 1 {
      forall s2 | s2 in R && s2 <= s1 ensures s2 == s1 {
        if s2 != s1 {
          assert {s1, s2} <= I;
          SubsetCard({s1, s2}, I);
        }
      }
    }
  }

  /** The `asdf` count of `search`: how many out-edges of u lead into s;
      it is zero exactly when u closes s. */
  method CountInside(sk: Skeleton, fwd: bool, s: set<nat>, u: nat) returns (asdf: nat)
    ensures asdf == 0 <==> Closes(sk, fwd, s, u)
  {
    asdf := 0;
    var outs := OutEdges(sk, fwd, u);
    var i := 0;
    while i < |outs|
      invariant i <= |outs|
      invariant asdf == 0 <==> forall j | 0 <= j < i :: Tgt(sk, fwd, outs[j]) !in s
    {
      asdf := asdf + if Tgt(sk, fwd, outs[i]) in s then 1 else 0;
      i := i + 1;
    }
  }

  /** Writes t to every out-edge of u. */
  method MarkOut(sk: Skeleton, fwd: bool, u: nat, t: LineType, types: seq<LineType>) returns (types': seq<LineType>)
    requires |types| == |sk.ends|
    ensures |types'| == |types|
    ensures forall e | 0 <= e < |types| :: types'[e] == if Src(sk, fwd, e) == u then t else types[e]
  {
    types' := types;
    var outs := OutEdges(sk, fwd, u);
    var i := 0;
    while i < |outs|
      invariant i <= |outs| && |types'| == |types|
      invariant forall e | 0 <= e < |types| ::
                  types'[e] == if e in outs[..i] then t else types[e]
    {
      types' := types'[outs[i] := t];
      i := i + 1;
    }
    assert outs[..i] == outs;
  }

  /** The marking loop of `search` for one counted set s1: every member
      that has no out-edge into s1 gets all its out-edges typed t. */
  method MarkSet(sk: Skeleton, fwd: bool, s1: set<nat>, t: LineType, types: seq<LineType>) returns (types': seq<LineType>)
    requires |types| == |sk.ends|
    ensures |types'| == |types|
    ensures forall e | 0 <= e < |types| ::
              types'[e] == if Src(sk, fwd, e) in s1 && Closes(sk, fwd, s1, Src(sk, fwd, e)) then t else types[e]
  {
    types' := types;
    var rest := s1;
    while rest != {}
      invariant rest <= s1 && |types'| == |types|
      invariant forall e | 0 <= e < |types| ::
                  types'[e] == if Src(sk, fwd, e) in s1 - rest && Closes(sk, fwd, s1, Src(sk, fwd, e)) then t else types[e]
      decreases rest
    {
      var u :| u in rest;
      var asdf := CountInside(sk, fwd, s1, u);
      if asdf == 0 {
        types' := MarkOut(sk, fwd, u, t, types');
      }
      rest := rest - {u};
    }
  }

  /** Marking the closing vertices of one more set s1 extends the marked
      edges by those of s1. */
  lemma MarkStep(sk: Skeleton, fwd: bool, M: set<set<nat>>, s1: set<nat>, t: LineType,
                 types: seq<LineType>, before: seq<LineType>, after: seq<LineType>)
    requires |types| == |sk.ends|
    requires before == Mark(types, MarkedBy(sk, fwd, M), t)
    requires |after| == |before|
    requires forall e | 0 <= e < |before| ::
               after[e] == if Src(sk, fwd, e) in s1 && Closes(sk, fwd, s1, Src(sk, fwd, e)) then t else before[e]
    ensures after == Mark(types, MarkedBy(sk, fwd, M + {s1}), t)
  {
    var want := Mark(types, MarkedBy(sk, fwd, M + {s1}), t);
    forall e | 0 <= e < |after| ensures after[e] == want[e] {
      assert e in MarkedBy(sk, fwd, M + {s1}) <==>
             e in MarkedBy(sk, fwd, M) || (Src(sk, fwd, e) in s1 && Closes(sk, fwd, s1, Src(sk, fwd, e)));
    }
  }

  /** The second loop of `search`: count the inclusion-minimal sets of R
      and mark the closing vertices' out-edges of each. */
  method CountMinimal(sk: Skeleton, fwd: bool, R: set<set<nat>>, t: LineType, types: seq<LineType>)
    returns (count: nat, types': seq<LineType>)
    requires |types| == |sk.ends|
    ensures count == |Minimal(R)|
    ensures types' == Mark(types, MarkedBy(sk, fwd, Minimal(R)), t)
  {
    count := 0;
    types' := types;
    var rest := R;
    assert Minimal(R) - rest == {};
    assert MarkedBy(sk, fwd, {}) == {};
    while rest != {}
      invariant rest <= R
      invariant count == |Minimal(R) - rest|
      invariant types' == Mark(types, MarkedBy(sk, fwd, Minimal(R) - rest), t)
      decreases rest
    {
      var s1 :| s1 in rest;
      count, types' := CountSet(sk, fwd, R, rest, s1, t, types, count, types');
      rest := rest - {s1};
    }
    assert Minimal(R) - rest == Minimal(R);
  }

  /** One set s1 of R, taken out of the sets still to look at: counted and
      marked when it is inclusion-minimal. */
  method CountSet(sk: Skeleton, fwd: bool, R: set<set<nat>>, rest: set<set<nat>>, s1: set<nat>, t: LineType,
                  types: seq<LineType>, count: nat, current: seq<LineType>)
    returns (count': nat, current': seq<LineType>)
    requires rest <= R && s1 in rest && |types| == |sk.ends|
    requires count == |Minimal(R) - rest|
    requires current == Mark(types, MarkedBy(sk, fwd, Minimal(R) - rest), t)
    ensures count' == |Minimal(R) - (rest - {s1})|
    ensures current' == Mark(types, MarkedBy(sk, fwd, Minimal(R) - (rest - {s1})), t)
  {
    var includes := CountIncluded(R, s1);
    IncludesOnce(R, s1);
    ghost var M := Minimal(R) - rest;
    if includes == 1 {
      assert Minimal(R) - (rest - {s1}) == M + {s1};
      count' := count + 1;
      current' := MarkSet(sk, fwd, s1, t, current);
      MarkStep(sk, fwd, M, s1, t, types, current, current');
    } else {
      assert Minimal(R) - (rest - {s1}) == M;
      count', current' := count, current;
    }
  }

  /** `search`: the number of inclusion-minimal recorded sets, and the edge
      types with their marked edges retyped t. */
  method Search(sk: Skeleton, fwd: bool, minArea: real, t: LineType, types: seq<LineType>)
    returns (count: nat, types': seq<LineType>)
    requires Layered(sk) && |types| == |sk.ends|
    ensures count == SearchCount(sk, fwd, minArea)
    ensures types' == Mark(types, SearchMarks(sk, fwd, minArea), t)
  {
    var minAreas := CollectMinAreas(sk, fwd, minArea);
    count, types' := CountMinimal(sk, fwd, minAreas, t, types);
  }

  /** `edges_of_type`: the edges among the first k whose type is t, in edge order. */
  function EdgesOfType(types: seq<LineType>, t: LineType, k: nat): (es: seq<nat>)
    requires k <= |types|
    ensures forall e: nat :: e in es <==> e < k && types[e] == t
    ensures forall i, j | 0 <= i < j < |es| :: es[i] < es[j]
    ensures forall i | 0 <= i < |es| :: es[i] < k
  {
    if k == 0 then []
    else if types[k - 1] == t then EdgesOfType(types, t, k - 1) + [k - 1]
    else EdgesOfType(types, t, k - 1)
  }

  /** `in_and_out_edges`: the in-edges of v followed by its out-edges. */
  function InAndOutEdges(sk: Skeleton, v: nat): (es: seq<nat>)
    ensures forall e: nat :: e in es <==> e < |sk.ends| && (sk.ends[e].1 == v || sk.ends[e].0 == v)
    ensures |es| == InDegree(sk, true, v) + OutDegree(sk, true, v)
  {
    InEdges(sk, true, v) + OutEdges(sk, true, v)
  }

  /** The counters one sweep of `minor` leaves, starting from zero: one
      visit from the source of every edge of type t, in edge order. */
  ghost function Swept(sk: Skeleton, fwd: bool, types: seq<LineType>, t: LineType): (c: seq<nat>)
    requires Layered(sk) && |types| == |sk.ends|
    ensures |c| == |sk.ends|
  {
    SweepOver(sk, fwd, types, t, EdgesOfType(types, t, |types|), NoCounts(|sk.ends|))
  }

  /** One sweep of `minor` counts every edge of type t. */
  lemma SweptCounted(sk: Skeleton, fwd: bool, types: seq<LineType>, t: LineType, e: nat)
    requires Layered(sk) && |types| == |sk.ends| && e < |sk.ends| && types[e] == t
    ensures Swept(sk, fwd, types, t)[e] > 0
  {
    var roots := EdgesOfType(types, t, |types|);
    var zeros := NoCounts(|sk.ends|);
    CoveredClosed(sk, fwd, types, t);
    SweepOverCount(sk, fwd, types, t, CoveredSet(sk, fwd, types, t), roots, zeros);
    assert e in roots;
  }

  /** Every edge one sweep of `minor` counts has type t or lies below the
      target of an edge of type t. */
  lemma SweptCovered(sk: Skeleton, fwd: bool, types: seq<LineType>, t: LineType, e: nat)
    requires Layered(sk) && |types| == |sk.ends| && e < |sk.ends| && Swept(sk, fwd, types, t)[e] > 0
    ensures types[e] == t || Covered(sk, fwd, types, t, Src(sk, fwd, e))
  {
    var roots := EdgesOfType(types, t, |types|);
    var zeros := NoCounts(|sk.ends|);
    var cov := CoveredSet(sk, fwd, types, t);
    CoveredClosed(sk, fwd, types, t);
    SweepOverCount(sk, fwd, types, t, cov, roots, zeros);
    var c := SweepOver(sk, fwd, types, t, roots, zeros);
    assert c[e] > zeros[e];
    assert types[e] == t || Src(sk, fwd, e) in cov;
  }

  /** What one sweep of `minor` leaves: every edge of type t is counted, and
      every counted edge has type t or lies below the target of an edge of
      type t. */
  lemma SweptFacts(sk: Skeleton, fwd: bool, types: seq<LineType>, t: LineType)
    requires Layered(sk) && |types| == |sk.ends|
    ensures var c := Swept(sk, fwd, types, t);
            && (forall e | 0 <= e < |sk.ends| && types[e] == t :: c[e] > 0)
            && forall e | 0 <= e < |sk.ends| && c[e] > 0 ::
                 types[e] == t || Covered(sk, fwd, types, t, Src(sk, fwd, e))
  {
    forall e | 0 <= e < |sk.ends| && types[e] == t
      ensures Swept(sk, fwd, types, t)[e] > 0
    {
      SweptCounted(sk, fwd, types, t, e);
    }
    forall e | 0 <= e < |sk.ends| && Swept(sk, fwd, types, t)[e] > 0
      ensures types[e] == t || Covered(sk, fwd, types, t, Src(sk, fwd, e))
    {
      SweptCovered(sk, fwd, types, t, e);
    }
  }

  /** `depth_first_visit` from u with an `su_visitor` watching type t: u
      turns gray, its out-edges are handled in order, u turns black. The
      state it leaves is VisitSpec's; VisitColor and VisitCount say what
      that is. */
  method SuVisit(sk: Skeleton, fwd: bool, types: seq<LineType>, t: LineType, u: nat,
                 color: seq<Color>, found: bool, cnt: seq<nat>)
    returns (color': seq<Color>, found': bool, cnt': seq<nat>)
    requires Layered(sk) && |types| == |sk.ends| && |cnt| == |sk.ends| && |color| == |sk.levels|
    requires u < |sk.levels|
    ensures Dfs(color', found', cnt') == VisitSpec(sk, fwd, types, t, u, Dfs(color, found, cnt))
    decreases Top(sk.levels) - Rank(sk, fwd, u), 1
  {
    color' := color[u := Gray];
    found' := found;
    cnt' := cnt;
    var outs := OutEdges(sk, fwd, u);
    var i := 0;
    while i < |outs|
      invariant i <= |outs| && |color'| == |color| && |cnt'| == |cnt|
      invariant EdgesSpec(sk, fwd, types, t, u, 0, Dfs(color[u := Gray], found, cnt))
                == EdgesSpec(sk, fwd, types, t, u, i, Dfs(color', found', cnt'))
    {
      color', found', cnt' := SuEdge(sk, fwd, types, t, outs[i], color', found', cnt');
      i := i + 1;
    }
    color' := color'[u := Black];
  }

  /** One out-edge e of a gray vertex in `depth_first_visit`. A gray target
      makes it a back edge, which `su_visitor` only finishes; otherwise the
      edge is visited (`found` is set by an edge of type t, and the edge is
      counted while `found` is on), a white target is explored, and the edge
      is finished (`found` is cleared by an edge of type t). The state it
      leaves is EdgeSpec's; EdgeColor and EdgeCount say what that is. */
  method SuEdge(sk: Skeleton, fwd: bool, types: seq<LineType>, t: LineType, e: nat,
                color: seq<Color>, found: bool, cnt: seq<nat>)
    returns (color': seq<Color>, found': bool, cnt': seq<nat>)
    requires Layered(sk) && |types| == |sk.ends| && |cnt| == |sk.ends| && |color| == |sk.levels|
    requires e < |sk.ends|
    ensures Dfs(color', found', cnt') == EdgeSpec(sk, fwd, types, t, e, Dfs(color, found, cnt))
    decreases Top(sk.levels) - Rank(sk, fwd, Src(sk, fwd, e)), 0
  {
    var v := Tgt(sk, fwd, e);
    RankGrows(sk, fwd, e);
    color', found', cnt' := color, found, cnt;
    if color[v] == Gray {
      // back edge: finish only
      found' := found && types[e] != t;
    } else {
      // tree edge (white target) or forward-or-cross edge (black): visit
      found' := found || types[e] == t;
      if found' {
        cnt' := cnt[e := cnt[e] + 1];
      }
      if color[v] == White {
        color', found', cnt' := SuVisit(sk, fwd, types, t, v, color', found', cnt');
      }
      // finish
      found' := found' && types[e] != t;
    }
  }

  /** One sweep of `minor`: a depth-first visit with fresh colours and
      `found` off from the source of every edge of type t, in edge order.
      The counters it leaves are SweepOver's; SweepOverCount, SweptCounted and SweptCovered
      say what they are. */
  method Sweep(sk: Skeleton, fwd: bool, types: seq<LineType>, t: LineType, cnt: seq<nat>) returns (cnt': seq<nat>)
    requires Layered(sk) && |types| == |sk.ends| && |cnt| == |sk.ends|
    ensures cnt' == SweepOver(sk, fwd, types, t, EdgesOfType(types, t, |types|), cnt)
  {
    var roots := EdgesOfType(types, t, |types|);
    cnt' := cnt;
    var i := 0;
    while i < |roots|
      invariant i <= |roots| && |cnt'| == |cnt|
      invariant SweepOver(sk, fwd, types, t, roots, cnt) == SweepOver(sk, fwd, types, t, roots[i..], cnt')
    {
      assert roots[i..][1..] == roots[i + 1..];
      cnt' := SweepRoot(sk, fwd, types, t, roots[i], cnt');
      i := i + 1;
    }
  }

  /** The visit of one sweep from the source of edge r, with fresh colours
      and `found` off. */
  method SweepRoot(sk: Skeleton, fwd: bool, types: seq<LineType>, t: LineType, r: nat, cnt: seq<nat>) returns (cnt': seq<nat>)
    requires Layered(sk) && |types| == |sk.ends| && |cnt| == |sk.ends| && r < |sk.ends|
    ensures cnt' == RootSpec(sk, fwd, types, t, r, cnt)
  {
    RankGrows(sk, fwd, r);
    var color := seq(|sk.levels|, _ => White);
    var found;
    color, found, cnt' := SuVisit(sk, fwd, types, t, Src(sk, fwd, r), color, false, cnt);
  }

  /** s with x inserted at position i. */
  function Insert<T>(s: seq<T>, i: nat, x: T): (r: seq<T>)
    requires i <= |s|
    ensures |r| == |s| + 1 && r[i] == x
  {
    s[..i] + [x] + s[i..]
  }

  /** In a sorted edge list, x is present exactly when it sits at its lower bound. */
  lemma LowerBoundFinds(ends: seq<End>, x: End)
    requires Sorted(ends)
    ensures var p := LowerBound(ends, x);
            x in ends <==> p < |ends| && ends[p] == x
  {
    var p := LowerBound(ends, x);
    if x in ends {
      forall k | p < k < |ends|
        ensures ends[k] != x
      {
        assert LexLess(ends[p], ends[k]);
      }
    }
  }

  /** An insertion adds exactly the inserted element. */
  lemma InsertMembers<T>(s: seq<T>, i: nat, x: T)
    requires i <= |s|
    ensures forall y :: y in Insert(s, i, x) <==> y in s || y == x
  {
    assert s == s[..i] + s[i..];
  }

  /** Inserting x at its lower bound keeps a sorted list sorted. */
  lemma InsertSorted(ends: seq<End>, x: End)
    requires Sorted(ends) && x !in ends
    ensures Sorted(Insert(ends, LowerBound(ends, x), x))
  {
    var p := LowerBound(ends, x);
    var r := Insert(ends, p, x);
    assert forall k | 0 <= k < p :: r[k] == ends[k];
    assert forall k | p < k < |r| :: r[k] == ends[k - 1];
    forall i | p <= i < |ends|
      ensures LexLess(x, ends[i])
    {
      assert ends[i] != x;
    }
    forall i, j | 0 <= i < j < |r|
      ensures LexLess(r[i], r[j])
    {
      if j == p {
      } else if i == p {
        assert r[j] == ends[j - 1];
      } else if j < p {
      } else if i < p {
        assert r[j] == ends[j - 1];
        assert LexLess(ends[i], ends[p]) || p == j - 1;
      } else {
        assert r[i] == ends[i - 1] && r[j] == ends[j - 1];
      }
    }
  }

  /** The edge list and vertex count after `add_edge(source, target)` on a
      well-formed graph: the edge is found at its lower bound, or inserted
      there; the result is well-formed again and holds exactly the old
      edges and the new one. */
  lemma AddEndShape(sk: Skeleton, source: nat, target: nat)
    requires WellFormed(sk)
    ensures var x := (source, target);
            var p := LowerBound(sk.ends, x);
            var ends := if p < |sk.ends| && sk.ends[p] == x then sk.ends else Insert(sk.ends, p, x);
            && (x in sk.ends <==> p < |sk.ends| && sk.ends[p] == x)
            && p < |ends| && ends[p] == x
            && (forall y :: y in ends <==> y in sk.ends || y == x)
            && WellFormed(Skeleton(Pad(sk.levels, Need(source, target), 0), Pad(sk.areas, Need(source, target), 0.0), ends))
  {
    var x := (source, target);
    var p := LowerBound(sk.ends, x);
    LowerBoundFinds(sk.ends, x);
    if x !in sk.ends {
      InsertSorted(sk.ends, x);
      InsertMembers(sk.ends, p, x);
    }
    var ends := if p < |sk.ends| && sk.ends[p] == x then sk.ends else Insert(sk.ends, p, x);
    PaddedWellFormed(sk, ends, source, target);
  }

  /** Padding the vertex maps up to both endpoints of a new edge keeps a
      graph well-formed whose sorted edge list gains only that edge. */
  lemma PaddedWellFormed(sk: Skeleton, ends: seq<End>, source: nat, target: nat)
    requires WellFormed(sk) && Sorted(ends)
    requires forall y :: y in ends ==> y in sk.ends || y == (source, target)
    ensures WellFormed(Skeleton(Pad(sk.levels, Need(source, target), 0), Pad(sk.areas, Need(source, target), 0.0), ends))
  {
    var n := |Pad(sk.levels, Need(source, target), 0)|;
    forall e | 0 <= e < |ends|
      ensures ends[e].0 < n && ends[e].1 < n
    {
      assert ends[e] in ends;
      if ends[e] != (source, target) {
        var k :| 0 <= k < |sk.ends| && sk.ends[k] == ends[e];
      }
    }
  }

  /**
   * The level graph with its property maps: per vertex a level, an area
   * and an accessibility flag; per edge (in the order of the ordered
   * out-edge sets) its endpoints, its arc list, its line type, its two
   * counters and its accessibility flag.
   */
  class LevelGraph {
    var levels: seq<int>
    var areas: seq<real>
    var vertexAccessible: seq<bool>
    var ends: seq<End>
    var arcs: seq<seq<Arc>>
    var types: seq<LineType>
    var stable: seq<nat>
    var unstable: seq<nat>
    var edgeAccessible: seq<bool>

    /** Every property map covers its vertices or edges, and the edge list
        is sorted without duplicates over existing vertices. */
    ghost predicate Valid()
      reads this
    {
      && WellFormed(Shape())
      && |vertexAccessible| == |levels|
      && |arcs| == |ends| && |types| == |ends| && |stable| == |ends|
      && |unstable| == |ends| && |edgeAccessible| == |ends|
    }

    /** The levels, areas and edges as a value. */
    function Shape(): Skeleton
      reads this
    {
      Skeleton(levels, areas, ends)
    }

    /** An empty graph. */
    constructor()
      ensures Valid()
      ensures levels == [] && areas == [] && vertexAccessible == []
      ensures ends == [] && arcs == [] && types == [] && stable == [] && unstable == [] && edgeAccessible == []
    {
      levels, areas, vertexAccessible := [], [], [];
      ends, arcs, types, stable, unstable, edgeAccessible := [], [], [], [], [], [];
    }

    /** The copy `push_back` makes of a level graph: a new graph with the
        same vertices, edges and properties. */
    method Clone() returns (copy: LevelGraph)
      requires Valid()
      ensures fresh(copy) && copy.Valid()
      ensures copy.levels == levels && copy.areas == areas && copy.vertexAccessible == vertexAccessible
      ensures copy.ends == ends && copy.arcs == arcs && copy.types == types
      ensures copy.stable == stable && copy.unstable == unstable && copy.edgeAccessible == edgeAccessible
    {
      copy := new LevelGraph();
      copy.levels, copy.areas, copy.vertexAccessible := levels, areas, vertexAccessible;
      copy.ends, copy.arcs, copy.types := ends, arcs, types;
      copy.stable, copy.unstable, copy.edgeAccessible := stable, unstable, edgeAccessible;
    }

    /** `add_vertex`: a new vertex, numbered after the others, with exactly
        the given level and area and not accessible. */
    method AddVertex(level: int, area: real) returns (v: nat)
      requires Valid()
      modifies this
      ensures Valid()
      ensures v == old(|levels|)
      ensures levels == old(levels) + [level] && areas == old(areas) + [area]
      ensures vertexAccessible == old(vertexAccessible) + [false]
      ensures ends == old(ends) && arcs == old(arcs) && types == old(types)
      ensures stable == old(stable) && unstable == old(unstable) && edgeAccessible == old(edgeAccessible)
    {
      v := |levels|;
      levels := levels + [level];
      areas := areas + [area];
      vertexAccessible := vertexAccessible + [false];
    }

    /** `add_edge` on ordered out-edge sets: the vertex list grows (with
        default properties) to hold both endpoints; an existing edge
        source -> target gains the arc, otherwise a new edge with just that
        arc, type SIMPLE and cleared counters is inserted at its place in
        the order. */
    method AddEdge(source: nat, target: nat, arc: Arc) returns (e: nat)
      requires Valid()
      modifies this
      ensures Valid()
      ensures levels == Pad(old(levels), Need(source, target), 0)
      ensures areas == Pad(old(areas), Need(source, target), 0.0)
      ensures vertexAccessible == Pad(old(vertexAccessible), Need(source, target), false)
      ensures forall x :: x in ends <==> x in old(ends) || x == (source, target)
      ensures e < |ends| && ends[e] == (source, target)
      ensures (source, target) in old(ends) ==>
                && ends == old(ends) && arcs == old(arcs)[e := old(arcs)[e] + [arc]]
                && types == old(types) && stable == old(stable) && unstable == old(unstable)
                && edgeAccessible == old(edgeAccessible)
      ensures (source, target) !in old(ends) ==>
                && e == LowerBound(old(ends), (source, target))
                && ends == Insert(old(ends), e, (source, target)) && arcs == Insert(old(arcs), e, [arc])
                && types == Insert(old(types), e, SIMPLE) && stable == Insert(old(stable), e, 0)
                && unstable == Insert(old(unstable), e, 0) && edgeAccessible == Insert(old(edgeAccessible), e, false)
    {
      var n := Need(source, target);
      var x := (source, target);
      e := LowerBound(ends, x);
      AddEndShape(Shape(), source, target);
      if e < |ends| && ends[e] == x {
        arcs := arcs[e := arcs[e] + [arc]];
      } else {
        ends, arcs, types := Insert(ends, e, x), Insert(arcs, e, [arc]), Insert(types, e, SIMPLE);
        stable, unstable := Insert(stable, e, 0), Insert(unstable, e, 0);
        edgeAccessible := Insert(edgeAccessible, e, false);
      }
      levels, areas, vertexAccessible := Pad(levels, n, 0), Pad(areas, n, 0.0), Pad(vertexAccessible, n, false);
    }

    /** `EdgeProperty::reset` on every edge: counters cleared and flags
        off; arcs and types untouched. */
    method ResetEdges()
      requires Valid()
      modifies this
      ensures Valid()
      ensures stable == NoCounts(|ends|) && unstable == NoCounts(|ends|)
      ensures edgeAccessible == seq(|ends|, _ => false)
      ensures levels == old(levels) && areas == old(areas) && vertexAccessible == old(vertexAccessible)
      ensures ends == old(ends) && arcs == old(arcs) && types == old(types)
    {
      var e := 0;
      while e < |ends|
        invariant Valid() && e <= |ends|
        invariant levels == old(levels) && areas == old(areas) && vertexAccessible == old(vertexAccessible)
        invariant ends == old(ends) && arcs == old(arcs) && types == old(types)
        invariant forall k | 0 <= k < e :: stable[k] == 0 && unstable[k] == 0 && !edgeAccessible[k]
      {
        stable := stable[e := 0];
        unstable := unstable[e := 0];
        edgeAccessible := edgeAccessible[e := false];
        e := e + 1;
      }
    }

    /** `get_SU`: every type reset to SIMPLE, then the forward search marks
        STABLE and the search on the reverse graph UNSTABLE; the result is
        the pair of counts. */
    method GetSU(minArea: real) returns (s: nat, u: nat)
      requires Valid() && Layered(Shape())
      modifies this
      ensures Valid()
      ensures s == SearchCount(old(Shape()), true, minArea) && u == SearchCount(old(Shape()), false, minArea)
      ensures types == SUTypes(old(Shape()), minArea)
      ensures levels == old(levels) && areas == old(areas) && vertexAccessible == old(vertexAccessible)
      ensures ends == old(ends) && arcs == old(arcs)
      ensures stable == old(stable) && unstable == old(unstable) && edgeAccessible == old(edgeAccessible)
    {
      var e := 0;
      while e < |types|
        invariant e <= |types| == |ends|
        invariant forall k | 0 <= k < e :: types[k] == SIMPLE
        invariant Valid() && Layered(Shape())
        invariant levels == old(levels) && areas == old(areas) && vertexAccessible == old(vertexAccessible)
        invariant ends == old(ends) && arcs == old(arcs)
        invariant stable == old(stable) && unstable == old(unstable) && edgeAccessible == old(edgeAccessible)
      {
        types := types[e := SIMPLE];
        e := e + 1;
      }
      assert types == seq(|ends|, _ => SIMPLE);
      var sk := Shape();
      var ts;
      s, ts := Search(sk, true, minArea, STABLE, types);
      u, ts := Search(sk, false, minArea, UNSTABLE, ts);
      types := ts;
    }

    /** The counting half of `minor`: clear the counters, count with the
        forward sweeps from the STABLE edges and the reverse sweeps from the
        UNSTABLE edges, keep the edges both counted and the vertices with a
        kept incident edge. */
    method MarkAccessible()
      requires Valid() && Layered(Shape())
      modifies this
      ensures Valid() && Layered(Shape())
      ensures levels == old(levels) && areas == old(areas) && ends == old(ends)
      ensures arcs == old(arcs) && types == old(types)
      ensures forall e | 0 <= e < |ends| && types[e] == STABLE :: stable[e] > 0
      ensures forall e | 0 <= e < |ends| && stable[e] > 0 ::
                types[e] == STABLE || Covered(Shape(), true, types, STABLE, Src(Shape(), true, e))
      ensures forall e | 0 <= e < |ends| && types[e] == UNSTABLE :: unstable[e] > 0
      ensures forall e | 0 <= e < |ends| && unstable[e] > 0 ::
                types[e] == UNSTABLE || Covered(Shape(), false, types, UNSTABLE, Src(Shape(), false, e))
      ensures stable == Swept(Shape(), true, types, STABLE)
      ensures unstable == Swept(Shape(), false, types, UNSTABLE)
      ensures forall e | 0 <= e < |ends| :: edgeAccessible[e] <==> stable[e] != 0 && unstable[e] != 0
      ensures forall v | 0 <= v < |levels| ::
                vertexAccessible[v] <==> exists e | 0 <= e < |ends| :: edgeAccessible[e] && (ends[e].0 == v || ends[e].1 == v)
    {
      ResetEdges();
      var sk := Shape();
      var st := Sweep(sk, true, types, STABLE, stable);
      var un := Sweep(sk, false, types, UNSTABLE, unstable);
      SweptFacts(sk, true, types, STABLE);
      SweptFacts(sk, false, types, UNSTABLE);
      stable, unstable := st, un;
      var acc := MarkAccessibleEdges(st, un, edgeAccessible);
      edgeAccessible := acc;
      var vacc := MarkAccessibleVertices(sk, acc, vertexAccessible);
      vertexAccessible := vacc;
    }

    /** `minor`: mark the accessible edges and vertices, then contract the
        kept graph into a Reeb graph. */
    method Minor() returns (result: ReebGraph, ghost order: seq<nat>)
      requires Valid() && Layered(Shape())
      modifies this
      ensures Valid() && Layered(Shape())
      ensures levels == old(levels) && areas == old(areas) && ends == old(ends)
      ensures arcs == old(arcs) && types == old(types)
      ensures forall e | 0 <= e < |ends| && types[e] == STABLE :: stable[e] > 0
      ensures forall e | 0 <= e < |ends| && stable[e] > 0 ::
                types[e] == STABLE || Covered(Shape(), true, types, STABLE, Src(Shape(), true, e))
      ensures forall e | 0 <= e < |ends| && types[e] == UNSTABLE :: unstable[e] > 0
      ensures forall e | 0 <= e < |ends| && unstable[e] > 0 ::
                types[e] == UNSTABLE || Covered(Shape(), false, types, UNSTABLE, Src(Shape(), false, e))
      ensures stable == Swept(Shape(), true, types, STABLE)
      ensures unstable == Swept(Shape(), false, types, UNSTABLE)
      ensures forall e | 0 <= e < |ends| :: edgeAccessible[e] <==> stable[e] != 0 && unstable[e] != 0
      ensures forall v | 0 <= v < |levels| ::
                vertexAccessible[v] <==> exists e | 0 <= e < |ends| :: edgeAccessible[e] && (ends[e].0 == v || ends[e].1 == v)
      ensures fresh(result) && result.Valid()
      ensures Layered(Filtered(Shape(), edgeAccessible))
      ensures Contraction(Filtered(Shape(), edgeAccessible), vertexAccessible, order, result.levels, result.edges)
    {
      MarkAccessible();
      FilteredLayered(Shape(), edgeAccessible);
      result, order := Contract(Filtered(Shape(), edgeAccessible), vertexAccessible);
    }
  }

  /** The edge loop of `minor`: an edge is accessible exactly when both
      of its counters are nonzero. */
  method MarkAccessibleEdges(st: seq<nat>, un: seq<nat>, acc0: seq<bool>) returns (acc: seq<bool>)
    requires |st| == |acc0| && |un| == |acc0|
    ensures |acc| == |acc0|
    ensures forall e | 0 <= e < |acc| :: acc[e] <==> st[e] != 0 && un[e] != 0
  {
    acc := acc0;
    var e := 0;
    while e < |acc|
      invariant e <= |acc| == |acc0|
      invariant forall k | 0 <= k < e :: acc[k] == (st[k] != 0 && un[k] != 0)
    {
      acc := acc[e := st[e] != 0 && un[e] != 0];
      e := e + 1;
    }
  }

  /** The vertex loop of `minor`: a vertex is accessible exactly when one of
      its in- or out-edges is. */
  method MarkAccessibleVertices(sk: Skeleton, acc: seq<bool>, vacc0: seq<bool>) returns (vacc: seq<bool>)
    requires |acc| == |sk.ends| && |vacc0| == |sk.levels|
    ensures |vacc| == |vacc0|
    ensures forall v | 0 <= v < |vacc| ::
              vacc[v] <==> exists e | 0 <= e < |sk.ends| :: acc[e] && (sk.ends[e].0 == v || sk.ends[e].1 == v)
  {
    vacc := vacc0;
    var v := 0;
    while v < |vacc|
      invariant v <= |vacc| == |vacc0|
      invariant forall w | 0 <= w < v ::
                  vacc[w] <==> exists e | 0 <= e < |sk.ends| :: acc[e] && (sk.ends[e].0 == w || sk.ends[e].1 == w)
    {
      vacc := vacc[v := false];
      var found := HasAccessibleEdge(sk, acc, v);
      if found {
        vacc := vacc[v := true];
      }
      v := v + 1;
    }
  }

  /** The inner loop of `minor` for vertex v: scan its in- and out-edges and
      stop at the first accessible one. */
  method HasAccessibleEdge(sk: Skeleton, acc: seq<bool>, v: nat) returns (found: bool)
    requires |acc| == |sk.ends|
    ensures found <==> exists e | 0 <= e < |sk.ends| :: acc[e] && (sk.ends[e].0 == v || sk.ends[e].1 == v)
  {
    var es := InAndOutEdges(sk, v);
    found := false;
    var k := 0;
    while k < |es|
      invariant k <= |es|
      invariant forall i | 0 <= i < k :: !acc[es[i]]
    {
      if acc[es[k]] {
        found := true;
        break;
      }
      k := k + 1;
    }
    if !found {
      forall e | 0 <= e < |sk.ends| && (sk.ends[e].0 == v || sk.ends[e].1 == v)
        ensures !acc[e]
      {
        assert e in es;
      }
    }
  }
}
