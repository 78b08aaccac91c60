/**
 * The level graph as a value: vertex levels and areas and the sorted list of
 * directed edges (levelgraph.hpp keeps out-edges in an ordered set, so the
 * edge list is ordered by (source, target)). Every definition takes a
 * direction flag: `fwd` reads the graph as stored, `!fwd` reads its reverse,
 * which is how the source runs the same search on `make_reverse_graph`.
 */
module LevelSpec {
  import opened Options

  datatype LineType = SIMPLE | STABLE | UNSTABLE

  /** A directed edge (source, target). */
  type End = (nat, nat)

  datatype Skeleton = Skeleton(levels: seq<int>, areas: seq<real>, ends: seq<End>)

  /** Lexicographic order on (source, target): the order of the ordered edge set. */
  predicate LexLess(a: End, b: End)
  {
    a.0 < b.0 || (a.0 == b.0 && a.1 < b.1)
  }

  predicate Sorted(ends: seq<End>)
  {
    forall i, j | 0 <= i < j < |ends| :: LexLess(ends[i], ends[j])
  }

  /** Property maps cover every vertex, edges join existing vertices and the
      edge list is strictly sorted (so no two edges share both endpoints). */
  predicate WellFormed(sk: Skeleton)
  {
    && |sk.levels| == |sk.areas|
    && Sorted(sk.ends)
    && forall e | 0 <= e < |sk.ends| :: sk.ends[e].0 < |sk.levels| && sk.ends[e].1 < |sk.levels|
  }

  /** Levels are non-negative and every edge goes from a lower level to a
      higher one: the shape the subrange contraction builds. */
  predicate Layered(sk: Skeleton)
  {
    && WellFormed(sk)
    && (forall v | 0 <= v < |sk.levels| :: sk.levels[v] >= 0)
    && forall e | 0 <= e < |sk.ends| :: sk.levels[sk.ends[e].0] < sk.levels[sk.ends[e].1]
  }

  function Src(sk: Skeleton, fwd: bool, e: nat): nat
    requires e < |sk.ends|
  {
    if fwd then sk.ends[e].0 else sk.ends[e].1
  }

  function Tgt(sk: Skeleton, fwd: bool, e: nat): nat
    requires e < |sk.ends|
  {
    if fwd then sk.ends[e].1 else sk.ends[e].0
  }

  /** The highest level, or 0 without vertices. */
  function Top(levels: seq<int>): (t: nat)
    ensures forall v | 0 <= v < |levels| :: levels[v] <= t
  {
    if |levels| == 0 then 0
    else
      var t := Top(levels[..|levels| - 1]);
      if levels[|levels| - 1] > t then levels[|levels| - 1] else t
  }

  /** A measure that grows along every edge in direction `fwd`. */
  function Rank(sk: Skeleton, fwd: bool, v: nat): nat
    requires Layered(sk) && v < |sk.levels|
  {
    if fwd then sk.levels[v] else Top(sk.levels) - sk.levels[v]
  }

  lemma RankGrows(sk: Skeleton, fwd: bool, e: nat)
    requires Layered(sk) && e < |sk.ends|
    ensures Src(sk, fwd, e) < |sk.levels| && Tgt(sk, fwd, e) < |sk.levels|
    ensures Rank(sk, fwd, Src(sk, fwd, e)) < Rank(sk, fwd, Tgt(sk, fwd, e)) <= Top(sk.levels)
  {
  }

  /** The edges among the first k whose source in direction `fwd` is v,
      in edge order. */
  function Select(sk: Skeleton, fwd: bool, v: nat, k: nat): (es: seq<nat>)
    requires k <= |sk.ends|
    ensures forall e: nat :: e in es <==> e < k && Src(sk, fwd, e) == v
    ensures forall i, j | 0 <= i < j < |es| :: es[i] < es[j]
    ensures forall i | 0 <= i < |es| :: es[i] < k && Src(sk, fwd, es[i]) == v
  {
    if k == 0 then []
    else if Src(sk, fwd, k - 1) == v then Select(sk, fwd, v, k - 1) + [k - 1]
    else Select(sk, fwd, v, k - 1)
  }

  /** Out-edges of v in direction `fwd`, ordered by target. */
  function OutEdges(sk: Skeleton, fwd: bool, v: nat): seq<nat>
  {
    Select(sk, fwd, v, |sk.ends|)
  }

  /** In-edges of v in direction `fwd`: its out-edges in the other direction. */
  function InEdges(sk: Skeleton, fwd: bool, v: nat): seq<nat>
  {
    Select(sk, !fwd, v, |sk.ends|)
  }

  function OutDegree(sk: Skeleton, fwd: bool, v: nat): nat
  {
    |OutEdges(sk, fwd, v)|
  }

  function InDegree(sk: Skeleton, fwd: bool, v: nat): nat
  {
    |InEdges(sk, fwd, v)|
  }

  /** `subtree_area`: the vertex's area plus, for every in-edge, the
      subtree area of its source. A vertex reachable along two paths is
      counted twice: the visited set is filled but never consulted. */
  function SubtreeSum(sk: Skeleton, fwd: bool, v: nat): real
    requires Layered(sk) && v < |sk.levels|
    decreases Rank(sk, fwd, v), 1, 0
  {
    sk.areas[v] + InSum(sk, fwd, v, InDegree(sk, fwd, v))
  }

  /** The sum of the subtree areas over the first k in-edges of v. */
  function InSum(sk: Skeleton, fwd: bool, v: nat, k: nat): real
    requires Layered(sk) && v < |sk.levels| && k <= InDegree(sk, fwd, v)
    decreases Rank(sk, fwd, v), 0, k
  {
    if k == 0 then 0.0
    else
      var e := InEdges(sk, fwd, v)[k - 1];
      RankGrows(sk, fwd, e);
      InSum(sk, fwd, v, k - 1) + SubtreeSum(sk, fwd, Src(sk, fwd, e))
  }

  /** The `visited` set `subtree_area` fills: v and everything upstream of it. */
  function Upstream(sk: Skeleton, fwd: bool, v: nat): set<nat>
    requires Layered(sk) && v < |sk.levels|
    decreases Rank(sk, fwd, v), 1, 0
  {
    {v} + UpIn(sk, fwd, v, InDegree(sk, fwd, v))
  }

  function UpIn(sk: Skeleton, fwd: bool, v: nat, k: nat): set<nat>
    requires Layered(sk) && v < |sk.levels| && k <= InDegree(sk, fwd, v)
    decreases Rank(sk, fwd, v), 0, k
  {
    if k == 0 then {}
    else
      var e := InEdges(sk, fwd, v)[k - 1];
      RankGrows(sk, fwd, e);
      UpIn(sk, fwd, v, k - 1) + Upstream(sk, fwd, Src(sk, fwd, e))
  }

  /** y can be reached from x along edges in direction `fwd` (x itself included). */
  predicate Reach(sk: Skeleton, fwd: bool, x: nat, y: nat)
    requires Layered(sk) && x < |sk.levels|
    decreases Top(sk.levels) - Rank(sk, fwd, x)
  {
    x == y
    || exists e | e in OutEdges(sk, fwd, x) ::
         RankGrows(sk, fwd, e);
         Reach(sk, fwd, Tgt(sk, fwd, e), y)
  }

  /** The walk `search` makes from a root: follow the only out-edge while
      there is exactly one, and stop at the first vertex whose subtree area
      reaches `minArea`. A vertex whose out-degree is not 1 ends the walk
      without being tested. */
  function WalkEnd(sk: Skeleton, fwd: bool, minArea: real, v: nat): (r: Option<nat>)
    requires Layered(sk) && v < |sk.levels|
    ensures r.Some? ==> r.value < |sk.levels|
    decreases Top(sk.levels) - Rank(sk, fwd, v)
  {
    if OutDegree(sk, fwd, v) != 1 then None
    else if SubtreeSum(sk, fwd, v) >= minArea then Some(v)
    else
      var e := OutEdges(sk, fwd, v)[0];
      RankGrows(sk, fwd, e);
      WalkEnd(sk, fwd, minArea, Tgt(sk, fwd, e))
  }

  predicate IsRoot(sk: Skeleton, fwd: bool, v: nat)
  {
    v < |sk.levels| && InDegree(sk, fwd, v) == 0
  }

  /** The visited set recorded by the walk from r, if r is a root whose walk
      stops at a vertex. */
  function RecordedAt(sk: Skeleton, fwd: bool, minArea: real, r: nat): set<set<nat>>
    requires Layered(sk) && r < |sk.levels|
  {
    if IsRoot(sk, fwd, r) && WalkEnd(sk, fwd, minArea, r).Some?
    then {Upstream(sk, fwd, WalkEnd(sk, fwd, minArea, r).value)}
    else {}
  }

  /** The union of F(0), ..., F(k-1). */
  function UnionBelow(F: nat -> set<set<nat>>, k: nat): set<set<nat>>
  {
    if k == 0 then {} else UnionBelow(F, k - 1) + F(k - 1)
  }

  /** The number of r < k with P(r). */
  function CountBelow(P: nat -> bool, k: nat): nat
  {
    if k == 0 then 0 else CountBelow(P, k - 1) + (if P(k - 1) then 1 else 0)
  }

  /** The visited sets recorded by the walks from the roots below k. */
  function RecordedBelow(sk: Skeleton, fwd: bool, minArea: real, k: nat): set<set<nat>>
    requires Layered(sk) && k <= |sk.levels|
  {
    UnionBelow((r: nat) => if r < |sk.levels| then RecordedAt(sk, fwd, minArea, r) else {}, k)
  }

  /** The number of roots (vertices without in-edges). */
  function RootCount(sk: Skeleton, fwd: bool): nat
  {
    CountBelow((r: nat) => IsRoot(sk, fwd, r), |sk.levels|)
  }

  /** The `min_areas` set after the walks from all roots. */
  function Recorded(sk: Skeleton, fwd: bool, minArea: real): set<set<nat>>
    requires Layered(sk)
  {
    RecordedBelow(sk, fwd, minArea, |sk.levels|)
  }

  /** The members of R that include no other member of R. */
  function Minimal(R: set<set<nat>>): set<set<nat>>
  {
    set s | s in R && forall s2 | s2 in R && s2 <= s :: s2 == s
  }

  /** No out-edge of u leads back into s. */
  predicate Closes(sk: Skeleton, fwd: bool, s: set<nat>, u: nat)
  {
    forall e | e in OutEdges(sk, fwd, u) :: Tgt(sk, fwd, e) !in s
  }

  /** The edges `search` retypes: the out-edges of every member of a counted
      set that has no out-edge into that set. */
  function MarkedBy(sk: Skeleton, fwd: bool, M: set<set<nat>>): set<nat>
  {
    set e | 0 <= e < |sk.ends| && exists s | s in M :: Src(sk, fwd, e) in s && Closes(sk, fwd, s, Src(sk, fwd, e))
  }

  /** The edge types after writing `t` to every edge of S. */
  function Mark(types: seq<LineType>, S: set<nat>, t: LineType): (r: seq<LineType>)
    ensures |r| == |types|
    ensures forall e | 0 <= e < |r| :: r[e] == if e in S then t else types[e]
  {
    seq(|types|, e requires 0 <= e < |types| => if e in S then t else types[e])
  }

  /** The count `search` returns. */
  function SearchCount(sk: Skeleton, fwd: bool, minArea: real): nat
    requires Layered(sk)
  {
    |Minimal(Recorded(sk, fwd, minArea))|
  }

  /** The edges `search` retypes. */
  function SearchMarks(sk: Skeleton, fwd: bool, minArea: real): set<nat>
    requires Layered(sk)
  {
    MarkedBy(sk, fwd, Minimal(Recorded(sk, fwd, minArea)))
  }

  /** The edge types after `get_SU`: all reset to SIMPLE, then the forward
      search writes STABLE and the reverse search UNSTABLE over it. */
  function SUTypes(sk: Skeleton, minArea: real): seq<LineType>
    requires Layered(sk)
  {
    Mark(Mark(seq(|sk.ends|, _ => SIMPLE), SearchMarks(sk, true, minArea), STABLE),
         SearchMarks(sk, false, minArea), UNSTABLE)
  }
}
