/**
 * The (S, U) result pair: the number of stable and of unstable equilibria of
 * one configuration, as a pair of reals so that it can hold averages
 * (result.hpp). Doubles are modelled as exact reals.
 */
module SuPairs {

  datatype SUPair = SUPair(S: real, U: real)

  /** The counts produced for one center: (stable, unstable). */
  type Counts = (nat, nat)

  const Zero := SUPair(0.0, 0.0)

  /** Conversion from a pair of counts: the first becomes S, the second U. */
  function FromCounts(c: Counts): (p: SUPair)
    ensures p.S == c.0 as real && p.U == c.1 as real
    ensures p.S >= 0.0 && p.U >= 0.0
  {
    SUPair(c.0 as real, c.1 as real)
  }

  /** `operator+`: component-wise sum. */
  function Add(a: SUPair, b: SUPair): SUPair
  {
    SUPair(a.S + b.S, a.U + b.U)
  }

  /** `operator/`: both components divided by the same (size) divider. */
  function Divide(a: SUPair, d: nat): SUPair
    requires d > 0
  {
    SUPair(a.S / d as real, a.U / d as real)
  }

  /** `accumulate(r, SUPair(0, 0))`: left fold of `Add` over the converted counts. */
  function Total(r: seq<Counts>): SUPair
  {
    if |r| == 0 then Zero else Add(Total(r[..|r| - 1]), FromCounts(r[|r| - 1]))
  }

  /** The AVERAGE reduction: total divided by the number of centers. */
  function Average(r: seq<Counts>): SUPair
    requires |r| > 0
  {
    Divide(Total(r), |r|)
  }

  /** n copies of x added up: n * x written as repeated addition, which keeps
      the induction steps below linear. */
  function Times(n: nat, x: real): real
  {
    if n == 0 then 0.0 else Times(n - 1, x) + x
  }

  lemma {:induction false} TimesIsProduct(n: nat, x: real)
    ensures Times(n, x) == n as real * x
  {
    if n > 0 {
      TimesIsProduct(n - 1, x);
      assert n as real * x == (n - 1) as real * x + x;
    }
  }

  /** The total of k copies of c is k times c. */
  lemma {:induction false} TotalOfCopies(c: Counts, k: nat)
    ensures Total(seq(k, _ => c)) == SUPair(Times(k, c.0 as real), Times(k, c.1 as real))
  {
    if k > 0 {
      var r := seq(k, _ => c);
      assert r[..k - 1] == seq(k - 1, _ => c);
      TotalOfCopies(c, k - 1);
    }
  }

  lemma DivideBack(n: real, x: real)
    requires n > 0.0
    ensures (n * x) / n == x
  {
  }

  /** Summing k copies of a pair and dividing by k gives the pair back. */
  lemma AverageOfCopies(c: Counts, k: nat)
    requires k > 0
    ensures Average(seq(k, _ => c)) == FromCounts(c)
  {
    TotalOfCopies(c, k);
    TimesIsProduct(k, c.0 as real);
    TimesIsProduct(k, c.1 as real);
    DivideBack(k as real, c.0 as real);
    DivideBack(k as real, c.1 as real);
  }

  /** Every center's S count lies in [lo, hi]. */
  predicate WithinS(r: seq<Counts>, lo: real, hi: real)
  {
    forall i | 0 <= i < |r| :: lo <= r[i].0 as real <= hi
  }

  /** Every center's U count lies in [lo, hi]. */
  predicate WithinU(r: seq<Counts>, lo: real, hi: real)
  {
    forall i | 0 <= i < |r| :: lo <= r[i].1 as real <= hi
  }

  /** The S total lies between |r| times the smallest and |r| times the
      largest S count. */
  lemma {:induction false} TotalBoundsS(r: seq<Counts>, lo: real, hi: real)
    requires WithinS(r, lo, hi)
    ensures Times(|r|, lo) <= Total(r).S <= Times(|r|, hi)
  {
    if |r| > 0 {
      var m := |r| - 1;
      assert WithinS(r[..m], lo, hi);
      TotalBoundsS(r[..m], lo, hi);
    }
  }

  /** The U total lies between |r| times the smallest and |r| times the
      largest U count. */
  lemma {:induction false} TotalBoundsU(r: seq<Counts>, lo: real, hi: real)
    requires WithinU(r, lo, hi)
    ensures Times(|r|, lo) <= Total(r).U <= Times(|r|, hi)
  {
    if |r| > 0 {
      var m := |r| - 1;
      assert WithinU(r[..m], lo, hi);
      TotalBoundsU(r[..m], lo, hi);
    }
  }

  /** Dividing a sum of n values within [lo, hi] by n stays within [lo, hi]. */
  lemma MeanBounds(n: real, sum: real, lo: real, hi: real)
    requires n > 0.0 && n * lo <= sum <= n * hi
    ensures lo <= sum / n <= hi
  {
  }

  /** The same bound, from sums written as repeated addition. */
  lemma MeanOfTimes(n: nat, sum: real, lo: real, hi: real)
    requires n > 0 && Times(n, lo) <= sum <= Times(n, hi)
    ensures lo <= sum / n as real <= hi
  {
    TimesIsProduct(n, lo);
    TimesIsProduct(n, hi);
    MeanBounds(n as real, sum, lo, hi);
  }

  /** The average of the centers lies, component by component, between the
      smallest and the largest count of any center. */
  lemma AverageBounds(r: seq<Counts>, lo: SUPair, hi: SUPair)
    requires |r| > 0
    requires WithinS(r, lo.S, hi.S) && WithinU(r, lo.U, hi.U)
    ensures lo.S <= Average(r).S <= hi.S && lo.U <= Average(r).U <= hi.U
  {
    var t := Total(r);
    TotalBoundsS(r, lo.S, hi.S);
    TotalBoundsU(r, lo.U, hi.U);
    MeanOfTimes(|r|, t.S, lo.S, hi.S);
    MeanOfTimes(|r|, t.U, lo.U, hi.U);
  }
}
