/**
 * The batch driver `execute` (model/execute.hpp): for every generator a
 * results matrix with one slot per level count, area ratio and center,
 * filled with the sizes of the stable and unstable equilibrium lists of
 * each sweep; the reachability marks over the sweep graph; the Reeb and
 * Morse outputs of the first center; and one reported pair per
 * aggregation entry, handed to a saver.
 */
module Execution {
  import opened SweepTree
  import opened SuPairs
  import opened Reduction
  import opened TreeEntries
  import opened Reports

  /** A sweep graph (a bidirectional adjacency list): vertices 0 ..
      vertices - 1, edges as (source, target) in insertion order, and for
      each edge the indices of its arcs in the arc list. */
  datatype Flow = Flow(vertices: nat, edges: seq<(nat, nat)>, arcs: seq<seq<nat>>)

  /** `rank` orders the vertices so that every edge climbs: the graph has
      no directed cycle, which is what makes the recursive walks end. */
  predicate Ranked(g: Flow, rank: seq<nat>)
  {
    && |rank| == g.vertices
    && (forall v | 0 <= v < |rank| :: rank[v] < |rank|)
    && forall i | 0 <= i < |g.edges| ::
         g.edges[i].0 < |rank| && g.edges[i].1 < |rank| && rank[g.edges[i].0] < rank[g.edges[i].1]
  }

  ghost predicate Acyclic(g: Flow)
  {
    exists rank :: Ranked(g, rank)
  }

  /** Edge i is an out-edge of v (forward) or an in-edge of v (backward). */
  predicate Touches(g: Flow, forward: bool, v: nat, i: nat)
    requires i < |g.edges|
  {
    (if forward then g.edges[i].0 else g.edges[i].1) == v
  }

  /** Edge e' continues edge e: it leaves e's target (forward) or enters
      e's source (backward). */
  predicate Follows(g: Flow, forward: bool, e: nat, e': nat)
  {
    && e < |g.edges| && e' < |g.edges|
    && if forward then g.edges[e'].0 == g.edges[e].1 else g.edges[e'].1 == g.edges[e].0
  }

  /** The edges among the first n that touch v, in insertion order:
      `out_edges(v)` forward, `in_edges(v)` backward. */
  function Incident(g: Flow, forward: bool, v: nat, n: nat): (es: seq<nat>)
    requires n <= |g.edges|
    ensures forall i | 0 <= i < |es| :: es[i] < n && Touches(g, forward, v, es[i])
  {
    if n == 0 then []
    else Incident(g, forward, v, n - 1) + (if Touches(g, forward, v, n - 1) then [n - 1] else [])
  }

  /** Every edge touching v is listed. */
  lemma {:induction false} IncidentComplete(g: Flow, forward: bool, v: nat, n: nat, i: nat)
    requires i < n <= |g.edges| && Touches(g, forward, v, i)
    ensures i in Incident(g, forward, v, n)
  {
    if i < n - 1 {
      IncidentComplete(g, forward, v, n - 1, i);
    }
  }

  /** The edges a walk may take after e. */
  function Next(g: Flow, forward: bool, e: nat): (es: seq<nat>)
    requires e < |g.edges|
    ensures forall i | 0 <= i < |es| :: Follows(g, forward, e, es[i])
  {
    Incident(g, forward, if forward then g.edges[e].1 else g.edges[e].0, |g.edges|)
  }

  /** How far a walk from e can still go: every step lowers it. */
  function Height(g: Flow, rank: seq<nat>, forward: bool, e: nat): nat
    requires Ranked(g, rank) && e < |g.edges|
  {
    if forward then |rank| - rank[g.edges[e].1] else rank[g.edges[e].0]
  }

  /** f is e or is reached from one of the edges that continue e. */
  predicate Reaches(g: Flow, rank: seq<nat>, forward: bool, e: nat, f: nat)
    requires Ranked(g, rank) && e < |g.edges|
    decreases Height(g, rank, forward, e)
  {
    var next := Next(g, forward, e);
    e == f || exists i | 0 <= i < |next| :: Reaches(g, rank, forward, next[i], f)
  }

  /** A walk: every edge continues the one before it. */
  predicate Walk(g: Flow, forward: bool, p: seq<nat>)
  {
    && |p| >= 1 && p[0] < |g.edges|
    && forall i | 0 <= i < |p| - 1 :: Follows(g, forward, p[i], p[i + 1])
  }

  lemma {:induction false} WalkReaches(g: Flow, rank: seq<nat>, forward: bool, p: seq<nat>)
    requires Ranked(g, rank) && Walk(g, forward, p)
    ensures Reaches(g, rank, forward, p[0], p[|p| - 1])
    decreases |p|
  {
    if |p| > 1 {
      var q := p[1..];
      assert Follows(g, forward, p[0], p[1]);
      assert forall i | 0 <= i < |q| - 1 :: Follows(g, forward, q[i], q[i + 1]) by {
        forall i | 0 <= i < |q| - 1 ensures Follows(g, forward, q[i], q[i + 1]) {
          assert q[i] == p[i + 1] && q[i + 1] == p[i + 2];
        }
      }
      WalkReaches(g, rank, forward, q);
      var next := Next(g, forward, p[0]);
      IncidentComplete(g, forward, if forward then g.edges[p[0]].1 else g.edges[p[0]].0, |g.edges|, p[1]);
      var i :| 0 <= i < |next| && next[i] == p[1];
      assert Reaches(g, rank, forward, next[i], p[|p| - 1]);
    }
  }

  lemma {:induction false} ReachesWalks(g: Flow, rank: seq<nat>, forward: bool, e: nat, f: nat) returns (p: seq<nat>)
    requires Ranked(g, rank) && e < |g.edges| && Reaches(g, rank, forward, e, f)
    ensures Walk(g, forward, p) && p[0] == e && p[|p| - 1] == f
    decreases Height(g, rank, forward, e)
  {
    if e == f {
      p := [e];
    } else {
      var next := Next(g, forward, e);
      var i :| 0 <= i < |next| && Reaches(g, rank, forward, next[i], f);
      var q := ReachesWalks(g, rank, forward, next[i], f);
      p := [e] + q;
      forall j | 0 <= j < |p| - 1 ensures Follows(g, forward, p[j], p[j + 1]) {
        if j > 0 {
          assert p[j] == q[j - 1] && p[j + 1] == q[j];
        }
      }
    }
  }

  /** The recursive definition of reachability is the walk one: f is
      reachable from e exactly when some walk leads from e to f. */
  lemma ReachesIsWalk(g: Flow, rank: seq<nat>, forward: bool, e: nat, f: nat)
    requires Ranked(g, rank) && e < |g.edges|
    ensures Reaches(g, rank, forward, e, f) <==> exists p :: Walk(g, forward, p) && p[0] == e && p[|p| - 1] == f
  {
    if Reaches(g, rank, forward, e, f) {
      var p := ReachesWalks(g, rank, forward, e, f);
    }
    if exists p :: Walk(g, forward, p) && p[0] == e && p[|p| - 1] == f {
      var p :| Walk(g, forward, p) && p[0] == e && p[|p| - 1] == f;
      WalkReaches(g, rank, forward, p);
    }
  }

  /** `mark_reachable_stable` (forward) and `mark_reachable_unstable`
      (backward): flag e, then recurse into every edge that continues it.
      Exactly the edges reachable from e get flagged; no flag is cleared. */
  method Mark(g: Flow, ghost rank: seq<nat>, forward: bool, e: nat, flags: array<bool>)
    requires Ranked(g, rank) && e < |g.edges| && flags.Length == |g.edges|
    modifies flags
    ensures forall f | 0 <= f < flags.Length :: flags[f] == (old(flags[f]) || Reaches(g, rank, forward, e, f))
    decreases Height(g, rank, forward, e)
  {
    flags[e] := true;
    var next := Next(g, forward, e);
    for i := 0 to |next|
      invariant forall f | 0 <= f < flags.Length ::
                  flags[f] == (old(flags[f]) || f == e || exists j | 0 <= j < i :: Reaches(g, rank, forward, next[j], f))
    {
      Mark(g, rank, forward, next[i], flags);
    }
  }

  /** f is reachable from one of the starting edges. */
  predicate ReachedFrom(g: Flow, rank: seq<nat>, forward: bool, starts: seq<nat>, f: nat)
    requires Ranked(g, rank) && forall i | 0 <= i < |starts| :: starts[i] < |g.edges|
  {
    exists i | 0 <= i < |starts| :: Reaches(g, rank, forward, starts[i], f)
  }

  /** The marking loops over the stable edges (forward) and over the
      underlying edges of the unstable ones (backward). */
  method MarkAll(g: Flow, ghost rank: seq<nat>, forward: bool, starts: seq<nat>, flags: array<bool>)
    requires Ranked(g, rank) && (forall i | 0 <= i < |starts| :: starts[i] < |g.edges|) && flags.Length == |g.edges|
    modifies flags
    ensures Marked(g, rank, forward, starts, old(flags[..]), flags[..])
  {
    for k := 0 to |starts|
      invariant forall f | 0 <= f < flags.Length :: flags[f] == (old(flags[f]) || ReachedFrom(g, rank, forward, starts[..k], f))
    {
      Mark(g, rank, forward, starts[k], flags);
      assert forall i | 0 <= i < k :: starts[..k + 1][i] == starts[..k][i];
      assert starts[..k + 1][k] == starts[k];
    }
    assert starts[..|starts|] == starts;
  }

  /** `after` is `before` with every edge reachable from a start flagged. */
  predicate Marked(g: Flow, rank: seq<nat>, forward: bool, starts: seq<nat>, before: seq<bool>, after: seq<bool>)
    requires Ranked(g, rank) && forall i | 0 <= i < |starts| :: starts[i] < |g.edges|
  {
    && |after| == |before|
    && forall f | 0 <= f < |after| :: after[f] == (before[f] || ReachedFrom(g, rank, forward, starts, f))
  }

  /** Arc a belongs to e or, recursively, to an edge entering e's source. */
  predicate Covers(g: Flow, rank: seq<nat>, e: nat, a: nat)
    requires Ranked(g, rank) && e < |g.edges| && |g.arcs| == |g.edges|
    decreases Height(g, rank, false, e)
  {
    var next := Next(g, false, e);
    a in g.arcs[e] || exists i | 0 <= i < |next| :: Covers(g, rank, next[i], a)
  }

  /** The arcs `set_stable` labels are exactly the arcs of the edges
      upstream of e (e included). */
  lemma {:induction false} CoversUpstream(g: Flow, rank: seq<nat>, e: nat, a: nat)
    requires Ranked(g, rank) && e < |g.edges| && |g.arcs| == |g.edges|
    ensures Covers(g, rank, e, a) <==> exists f | 0 <= f < |g.edges| :: Reaches(g, rank, false, e, f) && a in g.arcs[f]
    decreases Height(g, rank, false, e)
  {
    var next := Next(g, false, e);
    if Covers(g, rank, e, a) {
      if a in g.arcs[e] {
        assert Reaches(g, rank, false, e, e);
      } else {
        var i :| 0 <= i < |next| && Covers(g, rank, next[i], a);
        CoversUpstream(g, rank, next[i], a);
        var f :| 0 <= f < |g.edges| && Reaches(g, rank, false, next[i], f) && a in g.arcs[f];
        assert Reaches(g, rank, false, e, f);
      }
    }
    if exists f | 0 <= f < |g.edges| :: Reaches(g, rank, false, e, f) && a in g.arcs[f] {
      var f :| 0 <= f < |g.edges| && Reaches(g, rank, false, e, f) && a in g.arcs[f];
      if e != f {
        var i :| 0 <= i < |next| && Reaches(g, rank, false, next[i], f);
        CoversUpstream(g, rank, next[i], a);
      }
    }
  }

  /** Every arc index of the graph addresses the arc list. */
  predicate ArcsWithin(g: Flow, count: nat)
  {
    && |g.arcs| == |g.edges|
    && forall i, k | 0 <= i < |g.arcs| && 0 <= k < |g.arcs[i]| :: g.arcs[i][k] < count
  }

  /** `set_stable`: the value goes to every arc of e, then recursively to
      the arcs of every edge entering e's source. Exactly the arcs e covers
      change, all to `value`. */
  method SetStable(g: Flow, ghost rank: seq<nat>, e: nat, value: int, stable: array<int>)
    requires Ranked(g, rank) && e < |g.edges| && ArcsWithin(g, stable.Length)
    modifies stable
    ensures forall a | 0 <= a < stable.Length :: stable[a] == if Covers(g, rank, e, a) then value else old(stable[a])
    decreases Height(g, rank, false, e)
  {
    var own := g.arcs[e];
    for k := 0 to |own|
      invariant forall a | 0 <= a < stable.Length :: stable[a] == if a in own[..k] then value else old(stable[a])
    {
      stable[own[k]] := value;
      assert forall a :: a in own[..k + 1] <==> a in own[..k] || a == own[k];
    }
    assert own[..|own|] == own;
    var next := Next(g, false, e);
    for i := 0 to |next|
      invariant forall a | 0 <= a < stable.Length ::
                  stable[a] == if a in own || exists j | 0 <= j < i :: Covers(g, rank, next[j], a) then value else old(stable[a])
    {
      SetStable(g, rank, next[i], value, stable);
    }
  }

  /** What the geometry yields for a mesh: the sweep graph of a generator's
      center and level count, the stable and unstable equilibrium edges of
      that graph for an area ratio, and whether `make_morse` succeeds on
      the Reeb graph of an entry. Centers are placed from a fixed seed, so
      all three depend only on these values. */
  datatype Sweeps = Sweeps(
    graph: (Generator, nat, int) -> Flow,
    equilibria: Equilibria,
    morse: iset<Entry>)

  predicate Within(es: seq<nat>, n: nat)
  {
    forall i | 0 <= i < |es| :: es[i] < n
  }

  /** Every sweep graph is acyclic and its equilibria are edges of it. */
  ghost predicate SoundSweeps(input: Sweeps)
  {
    forall g, c, n :: Acyclic(input.graph(g, c, n)) &&
      forall r :: var eq := input.equilibria(g, c, n, r);
        Within(eq.0, |input.graph(g, c, n).edges|) && Within(eq.1, |input.graph(g, c, n).edges|)
  }

  /** Every generator yields at least one center. */
  predicate Centered(ps: Parameters)
  {
    forall i | 0 <= i < |ps| :: ps[i].value.count >= 1
  }

  /** The stable and unstable equilibrium edges of a sweep, by generator,
      center, level count and area ratio. */
  type Equilibria = (Generator, nat, int, real) -> (seq<nat>, seq<nat>)

  /** The slot of a center: the number of stable and of unstable edges. */
  function Slot(eq: Equilibria, g: Generator, c: nat, n: int, ratio: real): (p: Counts)
  {
    var found := eq(g, c, n, ratio);
    (|found.0|, |found.1|)
  }

  function SlotAt(eq: Equilibria, cs: CenterSphere, l: nat, r: nat, c: nat): Counts
    requires l < |cs.next| && r < |cs.next[l].next|
  {
    Slot(eq, cs.value, c, cs.next[l].value, cs.next[l].next[r].value)
  }

  /** The finished matrix of a generator: slot c of cell (l, r) holds the
      counts of center c for level count l and area ratio r. */
  function Results(eq: Equilibria, cs: CenterSphere): (m: Matrix)
    requires cs.value.count >= 0
    ensures Shaped(m, cs, CenterCount(cs.value))
  {
    seq(|cs.next|, l requires 0 <= l < |cs.next| =>
      seq(|cs.next[l].next|, r requires 0 <= r < |cs.next[l].next| =>
        seq(CenterCount(cs.value), c requires 0 <= c => SlotAt(eq, cs, l, r, c))))
  }

  /** The pairs reported for one generator from its results matrix. */
  function GeneratorSummary(eq: Equilibria, cs: CenterSphere): seq<Report>
    requires cs.value.count >= 1
  {
    Reported(cs, Results(eq, cs), CenterCount(cs.value))
  }

  /** One reported pair per aggregation entry of the generator's subtree. */
  lemma GeneratorSummaryConfigs(eq: Equilibria, cs: CenterSphere)
    requires cs.value.count >= 1
    ensures Configs(GeneratorSummary(eq, cs)) == OfGenerator((), cs)
  {
    ReportedConfigs(cs, Results(eq, cs), CenterCount(cs.value));
    assert Entries([cs]) == Flat((), [], OfGenerator) + OfGenerator((), cs);
  }

  /** The pairs reported for a whole tree, generator by generator. */
  function Summary(eq: Equilibria, ps: Parameters): seq<Report>
    requires Centered(ps)
  {
    if |ps| == 0 then []
    else Summary(eq, ps[..|ps| - 1]) + GeneratorSummary(eq, ps[|ps| - 1])
  }

  lemma SummaryStep(eq: Equilibria, ps: Parameters, i: nat)
    requires Centered(ps) && i < |ps|
    ensures Summary(eq, ps[..i + 1]) == Summary(eq, ps[..i]) + GeneratorSummary(eq, ps[i])
  {
    assert ps[..i + 1][..i] == ps[..i];
  }

  /** One reported pair per aggregation entry of the tree, in tree order. */
  lemma {:induction false} SummaryConfigs(eq: Equilibria, ps: Parameters)
    requires Centered(ps)
    ensures Configs(Summary(eq, ps)) == Entries(ps)
  {
    if |ps| > 0 {
      var init, cs := ps[..|ps| - 1], ps[|ps| - 1];
      assert init + [cs] == ps;
      calc {
        Configs(Summary(eq, ps));
        Configs(Summary(eq, init) + GeneratorSummary(eq, cs));
        { ConfigsConcat(Summary(eq, init), GeneratorSummary(eq, cs)); }
        Configs(Summary(eq, init)) + Configs(GeneratorSummary(eq, cs));
        { SummaryConfigs(eq, init); GeneratorSummaryConfigs(eq, cs); }
        Entries(init) + OfGenerator((), cs);
        { FlatAppend((), init, cs, OfGenerator); }
        Entries(ps);
      }
    }
  }

  /** The facts a sweep of a sound input supplies. */
  lemma SweepFacts(input: Sweeps, gen: Generator, c: nat, n: int, r: real)
    requires SoundSweeps(input)
    ensures Acyclic(input.graph(gen, c, n))
    ensures Within(input.equilibria(gen, c, n, r).0, |input.graph(gen, c, n).edges|)
    ensures Within(input.equilibria(gen, c, n, r).1, |input.graph(gen, c, n).edges|)
  {
  }

  /** Which of the first center's outputs is meant: the Reeb graph, saved
      for every ratio holding FIRST, or the Morse graph, saved only for the
      entries whose Reeb graph `make_morse` accepts. */
  datatype Output = ReebOutput | MorseOutput(made: iset<Entry>)

  predicate Keeps(o: Output, e: Entry)
  {
    o.ReebOutput? || e in o.made
  }

  /** The output of an area ratio: its FIRST entry, when the ratio holds
      FIRST and the output keeps the entry. */
  function OfGatedRatio(ctx: (Output, Generator, int), ar: AreaRatio): seq<Entry>
  {
    var e := Entry(ctx.1, ctx.2, ar.value, FIRST);
    if FIRST in ar.next && Keeps(ctx.0, e) then [e] else []
  }

  function OfGatedLevel(ctx: (Output, Generator), lc: LevelCount): seq<Entry>
  {
    Flat((ctx.0, ctx.1, lc.value), lc.next, OfGatedRatio)
  }

  /** Only the first center produces these outputs, so a generator without
      centers produces none. */
  function OfGatedGenerator(out: Output, cs: CenterSphere): seq<Entry>
  {
    if cs.value.count >= 1 then Flat((out, cs.value), cs.next, OfGatedLevel) else []
  }

  function Gated(out: Output, t: Parameters): seq<Entry>
  {
    Flat(out, t, OfGatedGenerator)
  }

  lemma GatedRatio(out: Output, g: Generator, n: int, ar: AreaRatio, e: Entry)
    ensures e in OfGatedRatio((out, g, n), ar) <==> e in OfRatio((g, n), ar) && e.aggregation == FIRST && Keeps(out, e)
  {
    FlatMember((g, n, ar.value), ar.next, OfAggregation, e);
    if e in OfRatio((g, n), ar) && e.aggregation == FIRST {
      var i :| 0 <= i < |ar.next| && e in OfAggregation((g, n, ar.value), ar.next[i]);
      assert ar.next[i] == FIRST;
    }
    if FIRST in ar.next {
      var i :| 0 <= i < |ar.next| && ar.next[i] == FIRST;
      assert Entry(g, n, ar.value, FIRST) in OfAggregation((g, n, ar.value), ar.next[i]);
    }
  }

  lemma GatedLevel(out: Output, g: Generator, lc: LevelCount, e: Entry)
    ensures e in OfGatedLevel((out, g), lc) <==> e in OfLevel(g, lc) && e.aggregation == FIRST && Keeps(out, e)
  {
    FlatMember((out, g, lc.value), lc.next, OfGatedRatio, e);
    FlatMember((g, lc.value), lc.next, OfRatio, e);
    forall i | 0 <= i < |lc.next|
      ensures e in OfGatedRatio((out, g, lc.value), lc.next[i]) <==> e in OfRatio((g, lc.value), lc.next[i]) && e.aggregation == FIRST && Keeps(out, e)
    {
      GatedRatio(out, g, lc.value, lc.next[i], e);
    }
  }

  lemma GatedGenerator(out: Output, cs: CenterSphere, e: Entry)
    ensures e in OfGatedGenerator(out, cs) <==>
            e in OfGenerator((), cs) && e.aggregation == FIRST && Keeps(out, e) && cs.value.count >= 1
  {
    FlatMember((out, cs.value), cs.next, OfGatedLevel, e);
    FlatMember(cs.value, cs.next, OfLevel, e);
    forall i | 0 <= i < |cs.next|
      ensures e in OfGatedLevel((out, cs.value), cs.next[i]) <==> e in OfLevel(cs.value, cs.next[i]) && e.aggregation == FIRST && Keeps(out, e)
    {
      GatedLevel(out, cs.value, cs.next[i], e);
    }
  }

  /** The Reeb outputs are exactly the FIRST entries of the tree, and the
      Morse outputs exactly those of them that `make_morse` accepts, for
      generators with at least one center. */
  lemma GatedEntries(out: Output, t: Parameters, e: Entry)
    ensures e in Gated(out, t) <==>
            e in Entries(t) && e.aggregation == FIRST && Keeps(out, e) && e.generator.count >= 1
  {
    FlatMember(out, t, OfGatedGenerator, e);
    FlatMember((), t, OfGenerator, e);
    forall i | 0 <= i < |t|
      ensures e in OfGatedGenerator(out, t[i]) <==>
              e in OfGenerator((), t[i]) && e.aggregation == FIRST && Keeps(out, e) && e.generator.count >= 1
    {
      GatedGenerator(out, t[i], e);
      if e in OfGenerator((), t[i]) {
        GeneratorOfEntry(t[i], e);
      }
    }
  }

  /** Every entry of a generator's subtree names that generator. */
  lemma GeneratorOfEntry(cs: CenterSphere, e: Entry)
    requires e in OfGenerator((), cs)
    ensures e.generator == cs.value
  {
    FlatMember(cs.value, cs.next, OfLevel, e);
    var l :| 0 <= l < |cs.next| && e in OfLevel(cs.value, cs.next[l]);
    FlatMember((cs.value, cs.next[l].value), cs.next[l].next, OfRatio, e);
    var r :| 0 <= r < |cs.next[l].next| && e in OfRatio((cs.value, cs.next[l].value), cs.next[l].next[r]);
    var ar := cs.next[l].next[r];
    FlatMember((cs.value, cs.next[l].value, ar.value), ar.next, OfAggregation, e);
  }

  /** Appending the entries of one more child to a trace of the first i
      children gives the trace of the first i + 1. */
  lemma TraceStep<C, T>(base: seq<Entry>, c: C, xs: seq<T>, i: nat, f: (C, T) -> seq<Entry>)
    requires i < |xs|
    ensures (base + Flat(c, xs[..i], f)) + f(c, xs[i]) == base + Flat(c, xs[..i + 1], f)
  {
    FlatPrefix(c, xs, i, f);
  }

  /** Appending to a trace in two steps appends the concatenation. */
  lemma Extended<T>(base: seq<T>, done: seq<T>, step: seq<T>)
    ensures (base + done) + step == base + (done + step)
  {
  }

  /** The output side of `execute` (the `Saver` template argument): the
      reported pairs and the entries for which a Reeb graph and a Morse
      graph were saved, each in call order. */
  class Saver {
    var su: seq<Report>
    var reeb: seq<Entry>
    var morse: seq<Entry>

    constructor()
      ensures su == [] && reeb == [] && morse == []
    {
      su, reeb, morse := [], [], [];
    }

    method Su(e: Entry, p: SUPair)
      modifies this
      ensures su == old(su) + [Report(e, p)] && reeb == old(reeb) && morse == old(morse)
    {
      su := su + [Report(e, p)];
    }

    method Reeb(e: Entry)
      modifies this
      ensures reeb == old(reeb) + [e] && su == old(su) && morse == old(morse)
    {
      reeb := reeb + [e];
    }

    method Morse(e: Entry)
      modifies this
      ensures morse == old(morse) + [e] && su == old(su) && reeb == old(reeb)
    {
      morse := morse + [e];
    }
  }

  /** The first center's outputs for an area ratio holding FIRST: its Reeb
      graph, then its Morse graph when `make_morse` succeeds. */
  method SaveFirst(input: Sweeps, gen: Generator, n: int, ar: AreaRatio, saver: Saver)
    modifies saver
    ensures saver.su == old(saver.su)
    ensures saver.reeb == old(saver.reeb) + OfGatedRatio((ReebOutput, gen, n), ar)
    ensures saver.morse == old(saver.morse) + OfGatedRatio((MorseOutput(input.morse), gen, n), ar)
  {
    if FIRST in ar.next {
      var e := Entry(gen, n, ar.value, FIRST);
      saver.Reeb(e);
      if e in input.morse {
        saver.Morse(e);
      }
    }
  }

  /** A row of cells of level count `lc` with slot `c` of every cell set
      to that center's counts for the cell's area ratio. */
  function FillSlot(eq: Equilibria, gen: Generator, c: nat, lc: LevelCount, row: seq<seq<Counts>>): seq<seq<Counts>>
    requires |row| == |lc.next| && forall r | 0 <= r < |row| :: c < |row[r]|
  {
    seq(|row|, r requires 0 <= r < |row| => row[r][c := Slot(eq, gen, c, lc.value, lc.next[r].value)])
  }

  /** The starts of one direction's marking: the stable edges forward, the
      edges underlying the unstable ones backward. */
  function Starts(eq: (seq<nat>, seq<nat>), forward: bool): seq<nat>
  {
    if forward then eq.0 else eq.1
  }

  /** Edge f is reached, in one direction, from the equilibria of one of
      the first k area ratios of level count `lc`: the flags are set by
      every ratio and cleared by none. */
  ghost predicate ReachedInRatios(input: Sweeps, gen: Generator, c: nat, lc: LevelCount, k: nat,
                                  rank: seq<nat>, forward: bool, f: nat)
    requires SoundSweeps(input) && k <= |lc.next| && Ranked(input.graph(gen, c, lc.value), rank)
  {
    exists r | 0 <= r < k ::
      && Within(Starts(input.equilibria(gen, c, lc.value, lc.next[r].value), forward), |input.graph(gen, c, lc.value).edges|)
      && ReachedFrom(input.graph(gen, c, lc.value), rank, forward,
                     Starts(input.equilibria(gen, c, lc.value, lc.next[r].value), forward), f)
  }

  /** One more ratio adds its own reached edges to the marks. */
  lemma ReachedInRatiosStep(input: Sweeps, gen: Generator, c: nat, lc: LevelCount, k: nat,
                            rank: seq<nat>, forward: bool, f: nat)
    requires SoundSweeps(input) && k < |lc.next| && Ranked(input.graph(gen, c, lc.value), rank)
    requires Within(Starts(input.equilibria(gen, c, lc.value, lc.next[k].value), forward), |input.graph(gen, c, lc.value).edges|)
    ensures ReachedInRatios(input, gen, c, lc, k + 1, rank, forward, f) <==>
              || ReachedInRatios(input, gen, c, lc, k, rank, forward, f)
              || ReachedFrom(input.graph(gen, c, lc.value), rank, forward,
                             Starts(input.equilibria(gen, c, lc.value, lc.next[k].value), forward), f)
  {
    if ReachedInRatios(input, gen, c, lc, k + 1, rank, forward, f) {
      var r :| 0 <= r < k + 1
        && Within(Starts(input.equilibria(gen, c, lc.value, lc.next[r].value), forward), |input.graph(gen, c, lc.value).edges|)
        && ReachedFrom(input.graph(gen, c, lc.value), rank, forward,
                       Starts(input.equilibria(gen, c, lc.value, lc.next[r].value), forward), f);
      if r < k {
        assert ReachedInRatios(input, gen, c, lc, k, rank, forward, f);
      }
    }
  }

  /** The area-ratio loop of one center and level count: the equilibria,
      the reachability marks, slot c of each cell, and for the first
      center the Reeb output of a ratio holding FIRST, followed by the
      Morse output when `make_morse` succeeds. */
  method SweepRatios(input: Sweeps, gen: Generator, c: nat, lc: LevelCount, row: seq<seq<Counts>>,
                     g: Flow, ghost rank: seq<nat>, stableFlags: array<bool>, unstableFlags: array<bool>, saver: Saver)
    returns (row': seq<seq<Counts>>)
    requires SoundSweeps(input) && g == input.graph(gen, c, lc.value) && Ranked(g, rank)
    requires stableFlags.Length == |g.edges| && unstableFlags.Length == |g.edges|
    requires |row| == |lc.next| && forall r | 0 <= r < |row| :: c < |row[r]|
    requires stableFlags != unstableFlags
    modifies saver, stableFlags, unstableFlags
    ensures row' == FillSlot(input.equilibria, gen, c, lc, row)
    ensures forall f | 0 <= f < stableFlags.Length ::
              stableFlags[f] == (old(stableFlags[f]) || ReachedInRatios(input, gen, c, lc, |lc.next|, rank, true, f))
    ensures forall f | 0 <= f < unstableFlags.Length ::
              unstableFlags[f] == (old(unstableFlags[f]) || ReachedInRatios(input, gen, c, lc, |lc.next|, rank, false, f))
    ensures saver.su == old(saver.su)
    ensures saver.reeb == old(saver.reeb) + (if c == 0 then Flat((ReebOutput, gen, lc.value), lc.next, OfGatedRatio) else [])
    ensures saver.morse == old(saver.morse) + (if c == 0 then Flat((MorseOutput(input.morse), gen, lc.value), lc.next, OfGatedRatio) else [])
  {
    row' := row;
    for r := 0 to |lc.next|
      invariant |row'| == |row|
      invariant forall r' | 0 <= r' < |row| ::
                  row'[r'] == if r' < r then row[r'][c := Slot(input.equilibria, gen, c, lc.value, lc.next[r'].value)] else row[r']
      invariant forall f | 0 <= f < stableFlags.Length ::
                  stableFlags[f] == (old(stableFlags[f]) || ReachedInRatios(input, gen, c, lc, r, rank, true, f))
      invariant forall f | 0 <= f < unstableFlags.Length ::
                  unstableFlags[f] == (old(unstableFlags[f]) || ReachedInRatios(input, gen, c, lc, r, rank, false, f))
      invariant saver.su == old(saver.su)
      invariant saver.reeb == old(saver.reeb) + (if c == 0 then Flat((ReebOutput, gen, lc.value), lc.next[..r], OfGatedRatio) else [])
      invariant saver.morse == old(saver.morse) + (if c == 0 then Flat((MorseOutput(input.morse), gen, lc.value), lc.next[..r], OfGatedRatio) else [])
    {
      var ar := lc.next[r];
      var eq := input.equilibria(gen, c, lc.value, ar.value);
      SweepFacts(input, gen, c, lc.value, ar.value);
      MarkAll(g, rank, true, eq.0, stableFlags);
      MarkAll(g, rank, false, eq.1, unstableFlags);
      forall f | 0 <= f < |g.edges|
        ensures stableFlags[f] == (old(stableFlags[f]) || ReachedInRatios(input, gen, c, lc, r + 1, rank, true, f))
        ensures unstableFlags[f] == (old(unstableFlags[f]) || ReachedInRatios(input, gen, c, lc, r + 1, rank, false, f))
      {
        ReachedInRatiosStep(input, gen, c, lc, r, rank, true, f);
        ReachedInRatiosStep(input, gen, c, lc, r, rank, false, f);
      }
      row' := row'[r := row'[r][c := (|eq.0|, |eq.1|)]];
      if c == 0 {
        SaveFirst(input, gen, lc.value, ar, saver);
        var reeb, morse := (ReebOutput, gen, lc.value), (MorseOutput(input.morse), gen, lc.value);
        TraceStep(old(saver.reeb), reeb, lc.next, r, OfGatedRatio);
        TraceStep(old(saver.morse), morse, lc.next, r, OfGatedRatio);
      }
    }
    assert lc.next[..|lc.next|] == lc.next;
    assert row' == FillSlot(input.equilibria, gen, c, lc, row);
  }

  /** One level count of center c: a fresh sweep graph with cleared marks,
      then its area-ratio loop. */
  method SweepLevel(input: Sweeps, gen: Generator, c: nat, lc: LevelCount, row: seq<seq<Counts>>, saver: Saver)
    returns (row': seq<seq<Counts>>)
    requires SoundSweeps(input)
    requires |row| == |lc.next| && forall r | 0 <= r < |row| :: c < |row[r]|
    modifies saver
    ensures row' == FillSlot(input.equilibria, gen, c, lc, row)
    ensures saver.su == old(saver.su)
    ensures saver.reeb == old(saver.reeb) + (if c == 0 then OfGatedLevel((ReebOutput, gen), lc) else [])
    ensures saver.morse == old(saver.morse) + (if c == 0 then OfGatedLevel((MorseOutput(input.morse), gen), lc) else [])
  {
    var g := input.graph(gen, c, lc.value);
    SweepFacts(input, gen, c, lc.value, 0.0);
    ghost var rank :| Ranked(g, rank);
    var stableFlags := new bool[|g.edges|](_ => false);
    var unstableFlags := new bool[|g.edges|](_ => false);
    row' := SweepRatios(input, gen, c, lc, row, g, rank, stableFlags, unstableFlags, saver);
  }

  /** The level-count loop of center c. */
  method ExecuteCenter(input: Sweeps, cs: CenterSphere, k: nat, c: nat, m: Matrix, saver: Saver)
    returns (m': Matrix)
    requires SoundSweeps(input) && Shaped(m, cs, k) && c < k
    modifies saver
    ensures |m'| == |m|
    ensures forall l | 0 <= l < |m| :: m'[l] == FillSlot(input.equilibria, cs.value, c, cs.next[l], m[l])
    ensures saver.su == old(saver.su)
    ensures saver.reeb == old(saver.reeb) + (if c == 0 then Flat((ReebOutput, cs.value), cs.next, OfGatedLevel) else [])
    ensures saver.morse == old(saver.morse) + (if c == 0 then Flat((MorseOutput(input.morse), cs.value), cs.next, OfGatedLevel) else [])
  {
    m' := m;
    for l := 0 to |cs.next|
      invariant |m'| == |m|
      invariant forall l' | 0 <= l' < |m| ::
                  m'[l'] == if l' < l then FillSlot(input.equilibria, cs.value, c, cs.next[l'], m[l']) else m[l']
      invariant saver.su == old(saver.su)
      invariant saver.reeb == old(saver.reeb) + (if c == 0 then Flat((ReebOutput, cs.value), cs.next[..l], OfGatedLevel) else [])
      invariant saver.morse == old(saver.morse) + (if c == 0 then Flat((MorseOutput(input.morse), cs.value), cs.next[..l], OfGatedLevel) else [])
    {
      var lc := cs.next[l];
      var row := SweepLevel(input, cs.value, c, lc, m'[l], saver);
      m' := m'[l := row];
      if c == 0 {
        var reeb, morse := (ReebOutput, cs.value), (MorseOutput(input.morse), cs.value);
        TraceStep(old(saver.reeb), reeb, cs.next, l, OfGatedLevel);
        TraceStep(old(saver.morse), morse, cs.next, l, OfGatedLevel);
      }
    }
    assert cs.next[..|cs.next|] == cs.next;
  }

  /** The matrix once the first `done` of `k` centers have run: their slots
      hold their counts, the others are still (0, 0). */
  function Partial(eq: Equilibria, cs: CenterSphere, k: nat, done: nat): (m: Matrix)
    ensures Shaped(m, cs, k)
  {
    seq(|cs.next|, l requires 0 <= l < |cs.next| =>
      seq(|cs.next[l].next|, r requires 0 <= r < |cs.next[l].next| =>
        seq(k, c requires 0 <= c => if c < done then SlotAt(eq, cs, l, r, c) else (0, 0))))
  }

  /** The zeroed matrix is the one no center has run on. */
  lemma PartialNone(eq: Equilibria, cs: CenterSphere, k: nat, m: Matrix)
    requires Shaped(m, cs, k)
    requires forall l, r, c | 0 <= l < |m| && 0 <= r < |m[l]| && 0 <= c < |m[l][r]| :: m[l][r][c] == (0, 0)
    ensures m == Partial(eq, cs, k, 0)
  {
    var P := Partial(eq, cs, k, 0);
    forall l | 0 <= l < |m| ensures m[l] == P[l] {
      forall r | 0 <= r < |m[l]| ensures m[l][r] == P[l][r] {
      }
    }
  }

  /** Filling slot `c` of every cell after the first `c` centers gives the
      matrix after the first `c + 1`. */
  lemma PartialStep(eq: Equilibria, cs: CenterSphere, k: nat, c: nat, m: Matrix, m': Matrix)
    requires c < k && m == Partial(eq, cs, k, c)
    requires |m'| == |m| && forall l | 0 <= l < |m| :: m'[l] == FillSlot(eq, cs.value, c, cs.next[l], m[l])
    ensures m' == Partial(eq, cs, k, c + 1)
  {
    var P := Partial(eq, cs, k, c + 1);
    forall l | 0 <= l < |m| ensures m'[l] == P[l] {
      forall r | 0 <= r < |m[l]| ensures m'[l][r] == P[l][r] {
      }
    }
  }

  /** Once every center has run the matrix is the results matrix. */
  lemma PartialAll(eq: Equilibria, cs: CenterSphere)
    requires cs.value.count >= 0
    ensures Partial(eq, cs, CenterCount(cs.value), CenterCount(cs.value)) == Results(eq, cs)
  {
    var k := CenterCount(cs.value);
    var P, R := Partial(eq, cs, k, k), Results(eq, cs);
    forall l | 0 <= l < |P| ensures P[l] == R[l] {
      forall r | 0 <= r < |P[l]| ensures P[l][r] == R[l][r] {
      }
    }
  }

  /** Hands the reported pairs to the saver one by one, in order. */
  method SaveReports(rs: seq<Report>, saver: Saver)
    modifies saver
    ensures saver.su == old(saver.su) + rs
    ensures saver.reeb == old(saver.reeb) && saver.morse == old(saver.morse)
  {
    for i := 0 to |rs|
      invariant saver.su == old(saver.su) + rs[..i]
      invariant saver.reeb == old(saver.reeb) && saver.morse == old(saver.morse)
    {
      saver.Su(rs[i].entry, rs[i].su);
      assert rs[..i + 1] == rs[..i] + [rs[i]];
    }
    assert rs[..|rs|] == rs;
  }

  /** One generator: the zeroed matrix, the center loop, then one reported
      pair per aggregation entry. */
  method ExecuteGenerator(input: Sweeps, cs: CenterSphere, saver: Saver)
    requires SoundSweeps(input) && cs.value.count >= 1
    modifies saver
    ensures saver.su == old(saver.su) + GeneratorSummary(input.equilibria, cs)
    ensures saver.reeb == old(saver.reeb) + OfGatedGenerator(ReebOutput, cs)
    ensures saver.morse == old(saver.morse) + OfGatedGenerator(MorseOutput(input.morse), cs)
  {
    var k := CenterCount(cs.value);
    var results := NewMatrix(cs, k);
    PartialNone(input.equilibria, cs, k, results);
    for c := 0 to k
      invariant results == Partial(input.equilibria, cs, k, c)
      invariant saver.su == old(saver.su)
      invariant saver.reeb == old(saver.reeb) + (if c == 0 then [] else OfGatedGenerator(ReebOutput, cs))
      invariant saver.morse == old(saver.morse) + (if c == 0 then [] else OfGatedGenerator(MorseOutput(input.morse), cs))
    {
      ghost var before := results;
      results := ExecuteCenter(input, cs, k, c, results, saver);
      PartialStep(input.equilibria, cs, k, c, before, results);
    }
    PartialAll(input.equilibria, cs);
    var rs := Collect(cs, results, k);
    SaveReports(rs, saver);
  }

  /** `execute`: every generator in turn. The saver receives exactly the
      reported pairs of every generator's results matrix, in tree order,
      and the Reeb and Morse outputs of the first centers. */
  method Execute(input: Sweeps, parameters: Parameters, saver: Saver)
    requires SoundSweeps(input) && Centered(parameters)
    modifies saver
    ensures saver.su == old(saver.su) + Summary(input.equilibria, parameters)
    ensures saver.reeb == old(saver.reeb) + Gated(ReebOutput, parameters)
    ensures saver.morse == old(saver.morse) + Gated(MorseOutput(input.morse), parameters)
  {
    for i := 0 to |parameters|
      invariant saver.su == old(saver.su) + Summary(input.equilibria, parameters[..i])
      invariant saver.reeb == old(saver.reeb) + Gated(ReebOutput, parameters[..i])
      invariant saver.morse == old(saver.morse) + Gated(MorseOutput(input.morse), parameters[..i])
    {
      var cs := parameters[i];
      ExecuteGenerator(input, cs, saver);
      SummaryStep(input.equilibria, parameters, i);
      Extended(old(saver.su), Summary(input.equilibria, parameters[..i]), GeneratorSummary(input.equilibria, cs));
      FlatPrefix(ReebOutput, parameters, i, OfGatedGenerator);
      Extended(old(saver.reeb), Gated(ReebOutput, parameters[..i]), OfGatedGenerator(ReebOutput, cs));
      FlatPrefix(MorseOutput(input.morse), parameters, i, OfGatedGenerator);
      Extended(old(saver.morse), Gated(MorseOutput(input.morse), parameters[..i]), OfGatedGenerator(MorseOutput(input.morse), cs));
    }
    assert parameters[..|parameters|] == parameters;
  }
}
