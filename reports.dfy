/**
 * The results matrix of one generator and the pairs reported from it
 * (computation.cpp, model/execute.hpp): one (S, U) count pair per level
 * count, area ratio and center, reduced per aggregation entry in level ->
 * ratio -> aggregation order.
 */
module Reports {
  import opened SweepTree
  import opened SuPairs
  import opened Reduction
  import opened TreeEntries

  /** `results[level][ratio][center]`. */
  type Matrix = seq<seq<seq<Counts>>>

  /** One reported pair together with the configuration it answers. */
  datatype Report = Report(entry: Entry, su: SUPair)

  /** The matrix has a row per level count of the generator, a column per
      area ratio of that level count, and `centers` slots in each cell. */
  predicate Shaped(m: Matrix, cs: CenterSphere, centers: nat)
  {
    && |m| == |cs.next|
    && forall l | 0 <= l < |m| ::
         && |m[l]| == |cs.next[l].next|
         && forall r | 0 <= r < |m[l]| :: |m[l][r]| == centers
  }

  /** The matrix allocation: every slot a value-initialised (0, 0) pair. */
  method NewMatrix(cs: CenterSphere, centers: nat) returns (m: Matrix)
    ensures Shaped(m, cs, centers)
    ensures forall l, r, c | 0 <= l < |m| && 0 <= r < |m[l]| && 0 <= c < |m[l][r]| :: m[l][r][c] == (0, 0)
  {
    m := [];
    for l := 0 to |cs.next|
      invariant |m| == l
      invariant forall l' | 0 <= l' < l ::
                  && |m[l']| == |cs.next[l'].next|
                  && forall r | 0 <= r < |m[l']| :: m[l'][r] == seq(centers, _ => (0, 0))
    {
      var row: seq<seq<Counts>> := [];
      for r := 0 to |cs.next[l].next|
        invariant |row| == r
        invariant forall r' | 0 <= r' < r :: row[r'] == seq(centers, _ => (0, 0))
      {
        row := row + [seq(centers, _ => (0, 0))];
      }
      m := m + [row];
    }
  }

  /** Every slot of the matrix holds the counts of a center, so every
      cell can be reduced. */
  predicate Reducible(m: Matrix, cs: CenterSphere, centers: nat)
  {
    Shaped(m, cs, centers) && centers > 0
  }

  /** The reports of one area ratio: one per aggregation entry, in order. */
  function RatioReports(path: (Generator, int, real), aggs: seq<Aggregation>, r: seq<Counts>): (rs: seq<Report>)
    requires |r| > 0
    ensures |rs| == |aggs|
  {
    if |aggs| == 0 then []
    else
      var a := aggs[|aggs| - 1];
      RatioReports(path, aggs[..|aggs| - 1], r) + [Report(Entry(path.0, path.1, path.2, a), Aggregate(a, r))]
  }

  /** The reports of one level count, area ratio by area ratio. */
  function LevelReports(path: (Generator, int), ratios: seq<AreaRatio>, cells: seq<seq<Counts>>): seq<Report>
    requires |cells| == |ratios| && forall r | 0 <= r < |cells| :: |cells[r]| > 0
  {
    if |ratios| == 0 then []
    else
      var k := |ratios| - 1;
      LevelReports(path, ratios[..k], cells[..k]) + RatioReports((path.0, path.1, ratios[k].value), ratios[k].next, cells[k])
  }

  /** The reports of one generator, level count by level count. */
  function GeneratorReports(g: Generator, levels: seq<LevelCount>, m: Matrix): seq<Report>
    requires |m| == |levels|
    requires forall l | 0 <= l < |m| :: |m[l]| == |levels[l].next| && forall r | 0 <= r < |m[l]| :: |m[l][r]| > 0
  {
    if |levels| == 0 then []
    else
      var k := |levels| - 1;
      GeneratorReports(g, levels[..k], m[..k]) + LevelReports((g, levels[k].value), levels[k].next, m[k])
  }

  /** The reports of a generator from its matrix. */
  function Reported(cs: CenterSphere, m: Matrix, centers: nat): seq<Report>
    requires Reducible(m, cs, centers)
  {
    GeneratorReports(cs.value, cs.next, m)
  }

  function Configs(rs: seq<Report>): (es: seq<Entry>)
    ensures |es| == |rs|
    ensures forall i | 0 <= i < |rs| :: es[i] == rs[i].entry
  {
    seq(|rs|, i requires 0 <= i < |rs| => rs[i].entry)
  }

  function Pairs(rs: seq<Report>): (ps: seq<SUPair>)
    ensures |ps| == |rs|
    ensures forall i | 0 <= i < |rs| :: ps[i] == rs[i].su
  {
    seq(|rs|, i requires 0 <= i < |rs| => rs[i].su)
  }

  lemma ConfigsConcat(a: seq<Report>, b: seq<Report>)
    ensures Configs(a + b) == Configs(a) + Configs(b)
  {
  }

  lemma PairsConcat(a: seq<Report>, b: seq<Report>)
    ensures Pairs(a + b) == Pairs(a) + Pairs(b)
  {
  }

  /** Each report of a ratio is the aggregation its entry names, over the
      ratio's cell. */
  lemma {:induction false} RatioConfigs(path: (Generator, int, real), aggs: seq<Aggregation>, r: seq<Counts>)
    requires |r| > 0
    ensures Configs(RatioReports(path, aggs, r)) == Flat(path, aggs, OfAggregation)
    ensures forall i | 0 <= i < |aggs| :: RatioReports(path, aggs, r)[i].su == Aggregate(aggs[i], r)
  {
    if |aggs| > 0 {
      var k := |aggs| - 1;
      RatioConfigs(path, aggs[..k], r);
      ConfigsConcat(RatioReports(path, aggs[..k], r), [Report(Entry(path.0, path.1, path.2, aggs[k]), Aggregate(aggs[k], r))]);
    }
  }

  lemma {:induction false} LevelConfigs(path: (Generator, int), ratios: seq<AreaRatio>, cells: seq<seq<Counts>>)
    requires |cells| == |ratios| && forall r | 0 <= r < |cells| :: |cells[r]| > 0
    ensures Configs(LevelReports(path, ratios, cells)) == Flat(path, ratios, OfRatio)
  {
    if |ratios| > 0 {
      var k := |ratios| - 1;
      LevelConfigs(path, ratios[..k], cells[..k]);
      RatioConfigs((path.0, path.1, ratios[k].value), ratios[k].next, cells[k]);
      ConfigsConcat(LevelReports(path, ratios[..k], cells[..k]), RatioReports((path.0, path.1, ratios[k].value), ratios[k].next, cells[k]));
    }
  }

  lemma {:induction false} GeneratorConfigs(g: Generator, levels: seq<LevelCount>, m: Matrix)
    requires |m| == |levels|
    requires forall l | 0 <= l < |m| :: |m[l]| == |levels[l].next| && forall r | 0 <= r < |m[l]| :: |m[l][r]| > 0
    ensures Configs(GeneratorReports(g, levels, m)) == Flat(g, levels, OfLevel)
  {
    if |levels| > 0 {
      var k := |levels| - 1;
      GeneratorConfigs(g, levels[..k], m[..k]);
      LevelConfigs((g, levels[k].value), levels[k].next, m[k]);
      ConfigsConcat(GeneratorReports(g, levels[..k], m[..k]), LevelReports((g, levels[k].value), levels[k].next, m[k]));
    }
  }

  /** A generator reports exactly one pair per configuration of its subtree,
      in tree order. */
  lemma ReportedConfigs(cs: CenterSphere, m: Matrix, centers: nat)
    requires Reducible(m, cs, centers)
    ensures Configs(Reported(cs, m, centers)) == Entries([cs])
  {
    GeneratorConfigs(cs.value, cs.next, m);
    assert Entries([cs]) == Flat((), [], OfGenerator) + OfGenerator((), cs);
  }

  /** The innermost aggregation loop: one report per aggregation entry of
      an area ratio, over that ratio's cell. */
  method CollectRatio(path: (Generator, int, real), aggs: seq<Aggregation>, cell: seq<Counts>) returns (rs: seq<Report>)
    requires |cell| > 0
    ensures rs == RatioReports(path, aggs, cell)
  {
    rs := [];
    for a := 0 to |aggs|
      invariant rs == RatioReports(path, aggs[..a], cell)
    {
      assert aggs[..a + 1][..a] == aggs[..a];
      rs := rs + [Report(Entry(path.0, path.1, path.2, aggs[a]), Aggregate(aggs[a], cell))];
    }
    assert aggs[..|aggs|] == aggs;
  }

  /** The area-ratio loop of one level count. */
  method CollectLevel(path: (Generator, int), ratios: seq<AreaRatio>, cells: seq<seq<Counts>>) returns (rs: seq<Report>)
    requires |cells| == |ratios| && forall r | 0 <= r < |cells| :: |cells[r]| > 0
    ensures rs == LevelReports(path, ratios, cells)
  {
    rs := [];
    for r := 0 to |ratios|
      invariant rs == LevelReports(path, ratios[..r], cells[..r])
    {
      var more := CollectRatio((path.0, path.1, ratios[r].value), ratios[r].next, cells[r]);
      assert ratios[..r + 1][..r] == ratios[..r];
      assert cells[..r + 1][..r] == cells[..r];
      rs := rs + more;
    }
    assert ratios[..|ratios|] == ratios;
    assert cells[..|cells|] == cells;
  }

  /** The aggregation loops: for every level count, area ratio and
      aggregation entry, the reduction of that cell's per-center pairs. */
  method Collect(cs: CenterSphere, m: Matrix, centers: nat) returns (rs: seq<Report>)
    requires Reducible(m, cs, centers)
    ensures rs == Reported(cs, m, centers)
  {
    rs := [];
    for l := 0 to |cs.next|
      invariant rs == GeneratorReports(cs.value, cs.next[..l], m[..l])
    {
      var more := CollectLevel((cs.value, cs.next[l].value), cs.next[l].next, m[l]);
      assert cs.next[..l + 1][..l] == cs.next[..l];
      assert m[..l + 1][..l] == m[..l];
      rs := rs + more;
    }
    assert cs.next[..|cs.next|] == cs.next;
    assert m[..|m|] == m;
  }
}
