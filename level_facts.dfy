/**
 * Facts about the level-graph search: what the visited sets are, which edges
 * the marking step retypes, and how many sets are counted.
 */
module LevelFacts {
  import opened Options
  import opened LevelSpec

  /** The edges of a WellFormed skeleton join existing vertices. */
  lemma EndsInRange(sk: Skeleton, fwd: bool, e: nat)
    requires WellFormed(sk) && e < |sk.ends|
    ensures Src(sk, fwd, e) < |sk.levels| && Tgt(sk, fwd, e) < |sk.levels|
  {
  }

  /** UpIn(v, k) is the union of the upstream sets of the first k in-edge sources. */
  lemma UpInCovers(sk: Skeleton, fwd: bool, v: nat, k: nat, u: nat)
    requires Layered(sk) && v < |sk.levels| && k <= InDegree(sk, fwd, v)
    ensures forall j | 0 <= j < k ::
              Upstream(sk, fwd, Src(sk, fwd, InEdges(sk, fwd, v)[j])) <= UpIn(sk, fwd, v, k)
    ensures u in UpIn(sk, fwd, v, k) ==>
              exists j | 0 <= j < k ::
                u in Upstream(sk, fwd, Src(sk, fwd, InEdges(sk, fwd, v)[j]))
  {
    forall j | 0 <= j < k
      ensures Upstream(sk, fwd, Src(sk, fwd, InEdges(sk, fwd, v)[j])) <= UpIn(sk, fwd, v, k)
    {
      UpInContains(sk, fwd, v, k, j);
    }
    UpInFrom(sk, fwd, v, k, u);
  }

  /** UpIn(v, k) holds the upstream set of each of the first k in-edge sources. */
  lemma {:induction false} UpInContains(sk: Skeleton, fwd: bool, v: nat, k: nat, j: nat)
    requires Layered(sk) && v < |sk.levels| && j < k <= InDegree(sk, fwd, v)
    ensures Upstream(sk, fwd, Src(sk, fwd, InEdges(sk, fwd, v)[j])) <= UpIn(sk, fwd, v, k)
  {
    RankGrows(sk, fwd, InEdges(sk, fwd, v)[k - 1]);
    if j < k - 1 {
      UpInContains(sk, fwd, v, k - 1, j);
    }
  }

  /** Every member of UpIn(v, k) comes from one of the first k in-edge sources. */
  lemma {:induction false} UpInFrom(sk: Skeleton, fwd: bool, v: nat, k: nat, u: nat)
    requires Layered(sk) && v < |sk.levels| && k <= InDegree(sk, fwd, v)
    ensures u in UpIn(sk, fwd, v, k) ==>
              exists j | 0 <= j < k ::
                u in Upstream(sk, fwd, Src(sk, fwd, InEdges(sk, fwd, v)[j]))
  {
    if k > 0 {
      UpInFrom(sk, fwd, v, k - 1, u);
      RankGrows(sk, fwd, InEdges(sk, fwd, v)[k - 1]);
    }
  }

  /** Every other member of Upstream(v) lies strictly below v and has an
      out-edge that leads back into Upstream(v). */
  lemma {:induction false} UpstreamBelow(sk: Skeleton, fwd: bool, v: nat, u: nat)
    requires Layered(sk) && v < |sk.levels|
    requires u in Upstream(sk, fwd, v) && u != v
    ensures u < |sk.levels| && Rank(sk, fwd, u) < Rank(sk, fwd, v)
    ensures exists e | e in OutEdges(sk, fwd, u) :: Tgt(sk, fwd, e) in Upstream(sk, fwd, v)
    decreases Rank(sk, fwd, v)
  {
    var ins := InEdges(sk, fwd, v);
    UpInCovers(sk, fwd, v, |ins|, u);
    var j :| 0 <= j < |ins| && u in Upstream(sk, fwd, Src(sk, fwd, ins[j]));
    var e := ins[j];
    RankGrows(sk, fwd, e);
    var w := Src(sk, fwd, e);
    assert Tgt(sk, fwd, e) == v;
    if u == w {
      assert e in OutEdges(sk, fwd, u);
    } else {
      UpstreamBelow(sk, fwd, w, u);
      var f :| f in OutEdges(sk, fwd, u) && Tgt(sk, fwd, f) in Upstream(sk, fwd, w);
      assert Tgt(sk, fwd, f) in Upstream(sk, fwd, v);
    }
  }

  /** Within Upstream(v), exactly v has no out-edge back into the set: the
      `asdf == 0` test of `search` singles out the vertex the walk stopped at. */
  lemma ClosesOnlyAtEnd(sk: Skeleton, fwd: bool, v: nat, u: nat)
    requires Layered(sk) && v < |sk.levels| && u in Upstream(sk, fwd, v)
    ensures Closes(sk, fwd, Upstream(sk, fwd, v), u) <==> u == v
  {
    if u == v {
      forall e | e in OutEdges(sk, fwd, v) ensures Tgt(sk, fwd, e) !in Upstream(sk, fwd, v) {
        RankGrows(sk, fwd, e);
        if Tgt(sk, fwd, e) in Upstream(sk, fwd, v) {
          UpstreamBelow(sk, fwd, v, Tgt(sk, fwd, e));
        }
      }
    } else {
      UpstreamBelow(sk, fwd, v, u);
    }
  }

  /** Every set of M is the upstream set of some vertex. */
  predicate UpstreamSets(sk: Skeleton, fwd: bool, M: set<set<nat>>)
    requires Layered(sk)
  {
    forall s | s in M :: exists w | 0 <= w < |sk.levels| :: s == Upstream(sk, fwd, w)
  }

  /** When every counted set is the upstream set of some vertex, an edge is
      retyped exactly when the upstream set of its source was counted. */
  lemma MarkedEdges(sk: Skeleton, fwd: bool, M: set<set<nat>>, e: nat)
    requires Layered(sk) && e < |sk.ends|
    requires UpstreamSets(sk, fwd, M)
    ensures e in MarkedBy(sk, fwd, M) <==> Upstream(sk, fwd, Src(sk, fwd, e)) in M
  {
    RankGrows(sk, fwd, e);
    var u := Src(sk, fwd, e);
    if Upstream(sk, fwd, u) in M {
      ClosesOnlyAtEnd(sk, fwd, u, u);
      assert u in Upstream(sk, fwd, u);
    }
    if e in MarkedBy(sk, fwd, M) {
      var s :| s in M && u in s && Closes(sk, fwd, s, u);
      var w :| 0 <= w < |sk.levels| && s == Upstream(sk, fwd, w);
      ClosesOnlyAtEnd(sk, fwd, w, u);
    }
  }

  /** The sets `search` counts are upstream sets of walk ends, so the edges it
      retypes are exactly the out-edges of the walk ends whose sets were
      counted (each such vertex has exactly one). */
  lemma SearchMarksWalkEnds(sk: Skeleton, fwd: bool, minArea: real, e: nat)
    requires Layered(sk) && e < |sk.ends|
    ensures e in SearchMarks(sk, fwd, minArea) <==>
              Upstream(sk, fwd, Src(sk, fwd, e)) in Minimal(Recorded(sk, fwd, minArea))
  {
    var M := Minimal(Recorded(sk, fwd, minArea));
    forall s | s in M ensures exists w | 0 <= w < |sk.levels| :: s == Upstream(sk, fwd, w) {
      RecordedMembers(sk, fwd, minArea, |sk.levels|, s);
      var r :| 0 <= r < |sk.levels| && IsRoot(sk, fwd, r) && WalkEnd(sk, fwd, minArea, r).Some?
               && s == Upstream(sk, fwd, WalkEnd(sk, fwd, minArea, r).value);
      var w := WalkEnd(sk, fwd, minArea, r).value;
      assert 0 <= w < |sk.levels| && s == Upstream(sk, fwd, w);
    }
    assert UpstreamSets(sk, fwd, M);
    MarkedEdges(sk, fwd, M, e);
  }

  /** An edge extends reachability by one step. */
  lemma {:induction false} ReachStep(sk: Skeleton, fwd: bool, x: nat, e: nat)
    requires Layered(sk) && x < |sk.levels| && e < |sk.ends|
    requires Reach(sk, fwd, x, Src(sk, fwd, e))
    ensures Reach(sk, fwd, x, Tgt(sk, fwd, e))
    decreases Top(sk.levels) - Rank(sk, fwd, x)
  {
    if x == Src(sk, fwd, e) {
      assert e in OutEdges(sk, fwd, x);
      RankGrows(sk, fwd, e);
      assert Reach(sk, fwd, Tgt(sk, fwd, e), Tgt(sk, fwd, e));
    } else {
      var f :| f in OutEdges(sk, fwd, x) && Reach(sk, fwd, Tgt(sk, fwd, f), Src(sk, fwd, e));
      RankGrows(sk, fwd, f);
      ReachStep(sk, fwd, Tgt(sk, fwd, f), e);
    }
  }

  /** Reachability is transitive. */
  lemma {:induction false} ReachTrans(sk: Skeleton, fwd: bool, x: nat, y: nat, z: nat)
    requires Layered(sk) && x < |sk.levels| && y < |sk.levels|
    requires Reach(sk, fwd, x, y) && Reach(sk, fwd, y, z)
    ensures Reach(sk, fwd, x, z)
    decreases Top(sk.levels) - Rank(sk, fwd, x)
  {
    if x != y {
      var e :| e in OutEdges(sk, fwd, x) && Reach(sk, fwd, Tgt(sk, fwd, e), y);
      RankGrows(sk, fwd, e);
      ReachTrans(sk, fwd, Tgt(sk, fwd, e), y, z);
    }
  }

  /** What x reaches is a vertex of at least its rank. */
  lemma {:induction false} ReachRank(sk: Skeleton, fwd: bool, x: nat, y: nat)
    requires Layered(sk) && x < |sk.levels| && Reach(sk, fwd, x, y)
    ensures y < |sk.levels| && Rank(sk, fwd, x) <= Rank(sk, fwd, y)
    decreases Top(sk.levels) - Rank(sk, fwd, x)
  {
    if x != y {
      var e :| e in OutEdges(sk, fwd, x) && Reach(sk, fwd, Tgt(sk, fwd, e), y);
      RankGrows(sk, fwd, e);
      ReachRank(sk, fwd, Tgt(sk, fwd, e), y);
    }
  }

  /** Upstream sets are closed under stepping back along an edge. */
  lemma {:induction false} UpstreamClosedBackward(sk: Skeleton, fwd: bool, v: nat, e: nat)
    requires Layered(sk) && v < |sk.levels| && e < |sk.ends|
    requires Tgt(sk, fwd, e) in Upstream(sk, fwd, v)
    ensures Src(sk, fwd, e) in Upstream(sk, fwd, v)
    decreases Rank(sk, fwd, v)
  {
    var ins := InEdges(sk, fwd, v);
    RankGrows(sk, fwd, e);
    UpInCovers(sk, fwd, v, |ins|, Tgt(sk, fwd, e));
    if Tgt(sk, fwd, e) == v {
      assert e in ins;
      var j :| 0 <= j < |ins| && ins[j] == e;
      assert Src(sk, fwd, e) in Upstream(sk, fwd, Src(sk, fwd, e));
    } else {
      var j :| 0 <= j < |ins| && Tgt(sk, fwd, e) in Upstream(sk, fwd, Src(sk, fwd, ins[j]));
      RankGrows(sk, fwd, ins[j]);
      UpstreamClosedBackward(sk, fwd, Src(sk, fwd, ins[j]), e);
    }
  }

  /** The visited set of `subtree_area(v)` is exactly the set of vertices
      from which v can be reached. */
  lemma {:induction false} UpstreamIsReach(sk: Skeleton, fwd: bool, v: nat, u: nat)
    requires Layered(sk) && v < |sk.levels| && u < |sk.levels|
    ensures u in Upstream(sk, fwd, v) <==> Reach(sk, fwd, u, v)
    decreases Top(sk.levels) - Rank(sk, fwd, u)
  {
    if u in Upstream(sk, fwd, v) {
      UpstreamReaches(sk, fwd, v, u);
    }
    if Reach(sk, fwd, u, v) && u != v {
      var e :| e in OutEdges(sk, fwd, u) && Reach(sk, fwd, Tgt(sk, fwd, e), v);
      RankGrows(sk, fwd, e);
      UpstreamIsReach(sk, fwd, v, Tgt(sk, fwd, e));
      UpstreamClosedBackward(sk, fwd, v, e);
    }
  }

  lemma {:induction false} UpstreamReaches(sk: Skeleton, fwd: bool, v: nat, u: nat)
    requires Layered(sk) && v < |sk.levels| && u in Upstream(sk, fwd, v)
    ensures u < |sk.levels| && Reach(sk, fwd, u, v)
    decreases Rank(sk, fwd, v)
  {
    if u != v {
      var ins := InEdges(sk, fwd, v);
      UpInCovers(sk, fwd, v, |ins|, u);
      var j :| 0 <= j < |ins| && u in Upstream(sk, fwd, Src(sk, fwd, ins[j]));
      var e := ins[j];
      RankGrows(sk, fwd, e);
      UpstreamReaches(sk, fwd, Src(sk, fwd, e), u);
      ReachStep(sk, fwd, u, e);
    }
  }

  /** A walk stops only at a vertex with exactly one out-edge whose subtree
      area reaches the threshold, and that vertex is reachable from the
      start; a walk that records nothing passes only vertices below the
      threshold and ends at a vertex whose out-degree is not 1. */
  lemma {:induction false} WalkEndStops(sk: Skeleton, fwd: bool, minArea: real, v: nat)
    requires Layered(sk) && v < |sk.levels|
    ensures var r := WalkEnd(sk, fwd, minArea, v);
            r.Some? ==> OutDegree(sk, fwd, r.value) == 1 && SubtreeSum(sk, fwd, r.value) >= minArea
                        && Reach(sk, fwd, v, r.value)
    decreases Top(sk.levels) - Rank(sk, fwd, v)
  {
    if OutDegree(sk, fwd, v) == 1 && SubtreeSum(sk, fwd, v) < minArea {
      var e := OutEdges(sk, fwd, v)[0];
      RankGrows(sk, fwd, e);
      WalkEndStops(sk, fwd, minArea, Tgt(sk, fwd, e));
      var r := WalkEnd(sk, fwd, minArea, v);
      if r.Some? {
        assert e in OutEdges(sk, fwd, v);
      }
    }
  }

  /** Every recorded set is the upstream set of the end of a root's walk. */
  lemma {:induction false} RecordedMembers(sk: Skeleton, fwd: bool, minArea: real, k: nat, s: set<nat>)
    requires Layered(sk) && k <= |sk.levels| && s in RecordedBelow(sk, fwd, minArea, k)
    ensures exists r | 0 <= r < k :: IsRoot(sk, fwd, r) && WalkEnd(sk, fwd, minArea, r).Some?
              && s == Upstream(sk, fwd, WalkEnd(sk, fwd, minArea, r).value)
  {
    if s !in RecordedAt(sk, fwd, minArea, k - 1) {
      RecordedMembers(sk, fwd, minArea, k - 1, s);
    }
  }

  /** The walk from root k adds its set, if any, to those of the roots below k. */
  lemma RecordedStep(sk: Skeleton, fwd: bool, minArea: real, k: nat)
    requires Layered(sk) && k < |sk.levels|
    ensures RecordedBelow(sk, fwd, minArea, k + 1)
              == RecordedBelow(sk, fwd, minArea, k) + RecordedAt(sk, fwd, minArea, k)
  {
  }

  lemma RecordedAtSize(sk: Skeleton, fwd: bool, minArea: real, r: nat)
    requires Layered(sk) && r < |sk.levels|
    ensures |RecordedAt(sk, fwd, minArea, r)| <= 1
    ensures !IsRoot(sk, fwd, r) ==> RecordedAt(sk, fwd, minArea, r) == {}
  {
  }

  /** A union of sets of which each has at most one member, and is empty where
      P fails, has at most as many members as there are r with P(r). */
  lemma {:induction false} UnionBound(F: nat -> set<set<nat>>, P: nat -> bool, k: nat)
    requires forall r | 0 <= r < k :: |F(r)| <= 1 && (!P(r) ==> F(r) == {})
    ensures |UnionBelow(F, k)| <= CountBelow(P, k)
  {
    if k > 0 {
      UnionBound(F, P, k - 1);
      var A := UnionBelow(F, k - 1);
      var X := F(k - 1);
      assert A + X == A + (X - A);
    }
  }

  /** `search` counts at most one set per root (in-degree 0 vertex). */
  lemma CountAtMostRoots(sk: Skeleton, fwd: bool, minArea: real)
    requires Layered(sk)
    ensures SearchCount(sk, fwd, minArea) <= RootCount(sk, fwd)
  {
    var R := Recorded(sk, fwd, minArea);
    assert Minimal(R) <= R;
    SubsetCard(Minimal(R), R);
    var F := (r: nat) => if r < |sk.levels| then RecordedAt(sk, fwd, minArea, r) else {};
    forall r | 0 <= r < |sk.levels|
      ensures |F(r)| <= 1 && (!IsRoot(sk, fwd, r) ==> F(r) == {})
    {
      RecordedAtSize(sk, fwd, minArea, r);
    }
    UnionBound(F, (r: nat) => IsRoot(sk, fwd, r), |sk.levels|);
  }

  lemma {:induction false} SubsetCard<T>(A: set<T>, B: set<T>)
    requires A <= B
    ensures |A| <= |B|
  {
    if A != {} {
      var x :| x in A;
      SubsetCard(A - {x}, B - {x});
    }
  }

  /** The diamond: two paths 0 -> 1 -> 3 and 0 -> 2 -> 3 where only vertex
      0 has area. */
  predicate IsDiamond(sk: Skeleton)
  {
    sk == Skeleton([0, 1, 1, 2], [1.0, 0.0, 0.0, 0.0], [(0, 1), (0, 2), (1, 3), (2, 3)])
  }

  lemma DiamondLayered(sk: Skeleton)
    requires IsDiamond(sk)
    ensures Layered(sk)
    ensures |sk.ends| == 4 && sk.ends[0] == (0, 1) && sk.ends[1] == (0, 2)
    ensures sk.ends[2] == (1, 3) && sk.ends[3] == (2, 3)
  {
    var ends := sk.ends;
    assert |ends| == 4 && ends[0] == (0, 1) && ends[1] == (0, 2) && ends[2] == (1, 3) && ends[3] == (2, 3);
    assert |sk.levels| == 4 && sk.levels[0] == 0 && sk.levels[1] == 1 && sk.levels[2] == 1 && sk.levels[3] == 2;
    assert |sk.areas| == 4;
    assert Sorted(ends);
  }

  lemma DiamondIn01(sk: Skeleton)
    requires IsDiamond(sk)
    ensures InEdges(sk, true, 0) == [] && InEdges(sk, true, 1) == [0]
  {
    DiamondLayered(sk);
    assert Select(sk, false, 0, 4) == [] by {
      assert Select(sk, false, 0, 1) == [];
      assert Select(sk, false, 0, 2) == [];
      assert Select(sk, false, 0, 3) == [];
    }
    assert Select(sk, false, 1, 4) == [0] by {
      assert Select(sk, false, 1, 1) == [0];
      assert Select(sk, false, 1, 2) == [0];
      assert Select(sk, false, 1, 3) == [0];
    }
  }

  lemma DiamondIn2(sk: Skeleton)
    requires IsDiamond(sk)
    ensures InEdges(sk, true, 2) == [1]
  {
    DiamondLayered(sk);
    assert Select(sk, false, 2, 1) == [];
    assert Select(sk, false, 2, 2) == [1];
    assert Select(sk, false, 2, 3) == [1];
  }

  lemma DiamondIn3(sk: Skeleton)
    requires IsDiamond(sk)
    ensures InEdges(sk, true, 3) == [2, 3]
  {
    DiamondLayered(sk);
    assert Select(sk, false, 3, 1) == [];
    assert Select(sk, false, 3, 2) == [];
    assert Select(sk, false, 3, 3) == [2];
  }

  lemma DiamondShape(sk: Skeleton)
    requires IsDiamond(sk)
    ensures Layered(sk)
    ensures InEdges(sk, true, 0) == [] && InEdges(sk, true, 1) == [0]
    ensures InEdges(sk, true, 2) == [1] && InEdges(sk, true, 3) == [2, 3]
  {
    DiamondLayered(sk);
    DiamondIn01(sk);
    DiamondIn2(sk);
    DiamondIn3(sk);
  }

  /** `subtree_area` counts a vertex once per path: in the diamond the one
      unit of area upstream of vertex 3 is counted twice. */
  lemma DiamondCountsTwice(sk: Skeleton)
    requires IsDiamond(sk)
    ensures Layered(sk)
    ensures Upstream(sk, true, 3) == {0, 1, 2, 3}
    ensures SubtreeSum(sk, true, 3) == 2.0
  {
    DiamondShape(sk);
    DiamondSums(sk);
    DiamondUpstream(sk);
  }

  lemma DiamondSums(sk: Skeleton)
    requires IsDiamond(sk)
    ensures Layered(sk) && SubtreeSum(sk, true, 3) == 2.0
  {
    DiamondShape(sk);
    var s0 := SubtreeSum(sk, true, 0);
    assert s0 == 1.0;
    assert SubtreeSum(sk, true, 1) == sk.areas[1] + InSum(sk, true, 1, 1);
    assert InSum(sk, true, 1, 1) == s0;
    assert SubtreeSum(sk, true, 2) == sk.areas[2] + InSum(sk, true, 2, 1);
    assert InSum(sk, true, 2, 1) == s0;
    assert InSum(sk, true, 3, 1) == SubtreeSum(sk, true, 1);
    assert InSum(sk, true, 3, 2) == InSum(sk, true, 3, 1) + SubtreeSum(sk, true, 2);
  }

  lemma DiamondUpstream(sk: Skeleton)
    requires IsDiamond(sk)
    ensures Layered(sk) && Upstream(sk, true, 3) == {0, 1, 2, 3}
  {
    DiamondShape(sk);
    assert Upstream(sk, true, 0) == {0};
    assert Upstream(sk, true, 1) == {0, 1};
    assert Upstream(sk, true, 2) == {0, 2};
    assert UpIn(sk, true, 3, 2) == {0, 1, 2};
  }
}
