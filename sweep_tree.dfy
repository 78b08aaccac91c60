/**
 * The parameter sweep tree shared by the stream reader, the batch table
 * loader and the two sweep drivers: a list of center-sphere generators, each
 * with its level counts, each with its area ratios, each with the list of
 * aggregation rules to report (model/parameters.hpp, parameters.hpp).
 */
module SweepTree {

  /** How the per-center (S, U) pairs of one configuration are reduced.
      The declaration order is part of the format: it is used as an index. */
  datatype Aggregation = FIRST | AVERAGE | SMIN | SMAX | UMIN | UMAX

  /** The position of an aggregation in the fixed declaration order. */
  function AggregationIndex(a: Aggregation): (i: nat)
    ensures i < 6
    ensures i == 0 <==> a == FIRST
  {
    match a
    case FIRST => 0
    case AVERAGE => 1
    case SMIN => 2
    case SMAX => 3
    case UMIN => 4
    case UMAX => 5
  }

  /** The aggregation stored at an index of the fixed order. */
  function AggregationAt(i: nat): (a: Aggregation)
    requires i < 6
  {
    if i == 0 then FIRST
    else if i == 1 then AVERAGE
    else if i == 2 then SMIN
    else if i == 3 then SMAX
    else if i == 4 then UMIN
    else UMAX
  }

  /** Index and aggregation are in one-to-one correspondence over 0..5. */
  lemma AggregationOrderIsBijective(a: Aggregation, i: nat)
    requires i < 6
    ensures AggregationAt(AggregationIndex(a)) == a
    ensures AggregationIndex(AggregationAt(i)) == i
  {
  }

  datatype Vector3 = Vector3(x: real, y: real, z: real)

  const ZeroVector := Vector3(0.0, 0.0, 0.0)

  /** Places `count` centers on a sphere whose volume is `ratio` times the
      mesh volume, shifted by `offset`. Only the number of centers is modelled. */
  datatype Generator = Generator(offset: Vector3, ratio: real, count: int)

  /** The default generator: no offset, ratio 0, one center. */
  const DefaultGenerator := Generator(ZeroVector, 0.0, 1)

  /** Generator equality as the source writes it: offset, ratio and count. */
  predicate SameGenerator(a: Generator, b: Generator)
  {
    a.offset == b.offset && a.ratio == b.ratio && a.count == b.count
  }

  /** Field-wise generator equality is exactly value equality: no field is
      ignored by the comparison. */
  lemma SameGeneratorIsEquality(a: Generator, b: Generator)
    ensures SameGenerator(a, b) <==> a == b
  {
  }

  /** The number of centers a generator yields (the point positions are
      random and are not modelled). */
  function CenterCount(g: Generator): (n: nat)
    requires g.count >= 0
    ensures n as int == g.count
  {
    g.count
  }

  /** One node of the tree: a value and the list of its children. */
  datatype Param<V, N> = Param(value: V, next: seq<N>)

  type AreaRatio = Param<real, Aggregation>
  type LevelCount = Param<int, AreaRatio>
  type CenterSphere = Param<Generator, LevelCount>
  type Parameters = seq<CenterSphere>

  /** The node `Parameter(value, next)` builds: the value and exactly one child. */
  function Single<V, N>(value: V, child: N): (p: Param<V, N>)
    ensures p.value == value && |p.next| == 1 && p.next[0] == child
  {
    Param(value, [child])
  }

  /** The one-path tree generator -> count -> ratio -> aggregation. */
  function Path(g: Generator, count: int, ratio: real, a: Aggregation): CenterSphere
  {
    Single(g, Single(count, Single(ratio, a)))
  }

  /** Sibling values are pairwise distinct. */
  predicate DistinctValues<V(==), N>(ps: seq<Param<V, N>>)
  {
    forall i, j | 0 <= i < j < |ps| :: ps[i].value != ps[j].value
  }

  /** The index of the first node holding `v`, or |ps| when there is none. */
  function Find<V(==), N>(ps: seq<Param<V, N>>, v: V): (i: nat)
    ensures i <= |ps|
    ensures i < |ps| ==> ps[i].value == v
    ensures forall j | 0 <= j < i :: ps[j].value != v
  {
    if |ps| == 0 then 0
    else if ps[0].value == v then 0
    else 1 + Find(ps[1..], v)
  }
}
