/**
 * The reduction of the per-center (S, U) counts of one configuration to a
 * single reported pair (computation.cpp, model/execute.hpp): the first
 * center, the average, or the first minimum / maximum under one of two
 * lexicographic orders.
 */
module Reduction {
  import opened SweepTree
  import opened SuPairs

  /** The two comparison orders: (S, U) is std::pair's own order,
      (U, S) is the one the UMIN / UMAX comparator builds with std::tie. */
  datatype Order = BySU | ByUS

  function Key(o: Order, c: Counts): Counts
  {
    match o
    case BySU => c
    case ByUS => (c.1, c.0)
  }

  /** Strict lexicographic comparison of two count pairs under order `o`. */
  predicate Less(o: Order, a: Counts, b: Counts)
  {
    var ka, kb := Key(o, a), Key(o, b);
    ka.0 < kb.0 || (ka.0 == kb.0 && ka.1 < kb.1)
  }

  /** i is the first index that no element is below under order o: every
      element before it is strictly above it. */
  predicate IsFirstMin(o: Order, r: seq<Counts>, i: nat)
  {
    && i < |r|
    && (forall j | 0 <= j < |r| :: !Less(o, r[j], r[i]))
    && forall j | 0 <= j < i :: Less(o, r[i], r[j])
  }

  /** i is the first index that no element is above under order o. */
  predicate IsFirstMax(o: Order, r: seq<Counts>, i: nat)
  {
    && i < |r|
    && (forall j | 0 <= j < |r| :: !Less(o, r[i], r[j]))
    && forall j | 0 <= j < i :: Less(o, r[j], r[i])
  }

  /** `min_element`: the index of the first element that no other element
      is smaller than. */
  function ArgMin(o: Order, r: seq<Counts>): (i: nat)
    requires |r| > 0
    ensures i < |r|
    ensures forall j | 0 <= j < |r| :: !Less(o, r[j], r[i])
    ensures forall j | 0 <= j < i :: Less(o, r[i], r[j])
  {
    if |r| == 1 then 0
    else
      var k := ArgMin(o, r[..|r| - 1]);
      if Less(o, r[|r| - 1], r[k]) then |r| - 1 else k
  }

  /** `max_element`: the index of the first element that no other element
      is larger than. */
  function ArgMax(o: Order, r: seq<Counts>): (i: nat)
    requires |r| > 0
    ensures i < |r|
    ensures forall j | 0 <= j < |r| :: !Less(o, r[i], r[j])
    ensures forall j | 0 <= j < i :: Less(o, r[j], r[i])
  {
    if |r| == 1 then 0
    else
      var k := ArgMax(o, r[..|r| - 1]);
      if Less(o, r[k], r[|r| - 1]) then |r| - 1 else k
  }

  /** The pair reported for one aggregation rule over the per-center counts
      `r` of one configuration (one entry per center). */
  function Aggregate(a: Aggregation, r: seq<Counts>): (p: SUPair)
    requires |r| > 0
    ensures a == FIRST ==> p == FromCounts(r[0])
    ensures a == AVERAGE ==> p == Average(r)
    ensures a in {SMIN, SMAX, UMIN, UMAX} ==> exists i | 0 <= i < |r| :: p == FromCounts(r[i])
    ensures a == SMIN ==> forall j | 0 <= j < |r| :: p.S <= r[j].0 as real
    ensures a == SMAX ==> forall j | 0 <= j < |r| :: p.S >= r[j].0 as real
    ensures a == UMIN ==> forall j | 0 <= j < |r| :: p.U <= r[j].1 as real
    ensures a == UMAX ==> forall j | 0 <= j < |r| :: p.U >= r[j].1 as real
  {
    match a
    case FIRST => FromCounts(r[0])
    case AVERAGE => Average(r)
    case SMIN => FromCounts(r[ArgMin(BySU, r)])
    case SMAX => FromCounts(r[ArgMax(BySU, r)])
    case UMIN => FromCounts(r[ArgMin(ByUS, r)])
    case UMAX => FromCounts(r[ArgMax(ByUS, r)])
  }

  /** Which center the min/max rules pick: SMIN and SMAX the first minimum
      and maximum under the (S, U) order, UMIN and UMAX under the (U, S)
      order. */
  lemma AggregateFirstExtreme(a: Aggregation, r: seq<Counts>)
    requires |r| > 0
    ensures a == SMIN ==> exists i: nat | IsFirstMin(BySU, r, i) :: Aggregate(a, r) == FromCounts(r[i])
    ensures a == SMAX ==> exists i: nat | IsFirstMax(BySU, r, i) :: Aggregate(a, r) == FromCounts(r[i])
    ensures a == UMIN ==> exists i: nat | IsFirstMin(ByUS, r, i) :: Aggregate(a, r) == FromCounts(r[i])
    ensures a == UMAX ==> exists i: nat | IsFirstMax(ByUS, r, i) :: Aggregate(a, r) == FromCounts(r[i])
  {
    if a == SMIN {
      var i := ArgMin(BySU, r);
      assert IsFirstMin(BySU, r, i);
      assert Aggregate(a, r) == FromCounts(r[i]);
    } else if a == SMAX {
      var i := ArgMax(BySU, r);
      assert IsFirstMax(BySU, r, i);
      assert Aggregate(a, r) == FromCounts(r[i]);
    } else if a == UMIN {
      var i := ArgMin(ByUS, r);
      assert IsFirstMin(ByUS, r, i);
      assert Aggregate(a, r) == FromCounts(r[i]);
    } else if a == UMAX {
      var i := ArgMax(ByUS, r);
      assert IsFirstMax(ByUS, r, i);
      assert Aggregate(a, r) == FromCounts(r[i]);
    }
  }

  /** At most one index is the first minimum, and at most one the first
      maximum: the rules above pick a single center. */
  lemma FirstExtremeUnique(o: Order, r: seq<Counts>, i: nat, k: nat)
    ensures IsFirstMin(o, r, i) && IsFirstMin(o, r, k) ==> i == k
    ensures IsFirstMax(o, r, i) && IsFirstMax(o, r, k) ==> i == k
  {
    if IsFirstMin(o, r, i) && IsFirstMin(o, r, k) {
      assert !Less(o, r[i], r[k]) && !Less(o, r[k], r[i]);
    }
    if IsFirstMax(o, r, i) && IsFirstMax(o, r, k) {
      assert !Less(o, r[i], r[k]) && !Less(o, r[k], r[i]);
    }
  }

  /** A tie on S is broken by U, and a tie on U by S: SMIN over
      [(1, 5), (1, 2)] reports (1, 2), UMAX over [(1, 4), (3, 4)] reports
      (3, 4). */
  lemma TiesBroken()
    ensures Aggregate(SMIN, [(1, 5), (1, 2)]) == SUPair(1.0, 2.0)
    ensures Aggregate(UMAX, [(1, 4), (3, 4)]) == SUPair(3.0, 4.0)
  {
  }

  /** When every center gives the same counts, every rule reports them. */
  lemma AggregateOfCopies(a: Aggregation, c: Counts, k: nat)
    requires k > 0
    ensures Aggregate(a, seq(k, _ => c)) == FromCounts(c)
  {
    if a == AVERAGE {
      AverageOfCopies(c, k);
    }
  }

  /** The SMIN and SMAX pairs bound the average's S from both sides, and the
      UMIN and UMAX pairs its U. */
  lemma AverageBetweenExtremes(r: seq<Counts>)
    requires |r| > 0
    ensures Aggregate(SMIN, r).S <= Aggregate(AVERAGE, r).S <= Aggregate(SMAX, r).S
    ensures Aggregate(UMIN, r).U <= Aggregate(AVERAGE, r).U <= Aggregate(UMAX, r).U
  {
    var lo := SUPair(Aggregate(SMIN, r).S, Aggregate(UMIN, r).U);
    var hi := SUPair(Aggregate(SMAX, r).S, Aggregate(UMAX, r).U);
    AverageBounds(r, lo, hi);
  }
}
