/**
 * The leaves of the sweep tree read as configurations, and the
 * find-or-insert rule by which both parameter readers add one
 * configuration to a tree (parameters.cpp, model/batch.cpp).
 */
module TreeEntries {
  import opened SweepTree

  /** One aggregation entry together with the path that leads to it:
      generator, level count, area ratio and aggregation. */
  datatype Entry = Entry(generator: Generator, levelCount: int, areaRatio: real, aggregation: Aggregation)

  /** The entries `f` gives for each element of `xs` under the context `c`,
      concatenated from left to right. */
  function Flat<C, T>(c: C, xs: seq<T>, f: (C, T) -> seq<Entry>): seq<Entry>
  {
    if |xs| == 0 then [] else Flat(c, xs[..|xs| - 1], f) + f(c, xs[|xs| - 1])
  }

  function OfAggregation(path: (Generator, int, real), a: Aggregation): seq<Entry>
  {
    [Entry(path.0, path.1, path.2, a)]
  }

  function OfRatio(path: (Generator, int), ar: AreaRatio): seq<Entry>
  {
    Flat((path.0, path.1, ar.value), ar.next, OfAggregation)
  }

  function OfLevel(g: Generator, lc: LevelCount): seq<Entry>
  {
    Flat((g, lc.value), lc.next, OfRatio)
  }

  function OfGenerator(u: (), cs: CenterSphere): seq<Entry>
  {
    Flat(cs.value, cs.next, OfLevel)
  }

  /** All entries of a tree in tree order: generator, then level count, then
      area ratio, then the aggregations of that ratio in list order. */
  function Entries(t: Parameters): seq<Entry>
  {
    Flat((), t, OfGenerator)
  }

  lemma FlatAppend<C, T>(c: C, xs: seq<T>, x: T, f: (C, T) -> seq<Entry>)
    ensures Flat(c, xs + [x], f) == Flat(c, xs, f) + f(c, x)
  {
    assert (xs + [x])[..|xs|] == xs;
  }

  /** Extending a prefix by one element extends its entries by that
      element's entries. */
  lemma FlatPrefix<C, T>(c: C, xs: seq<T>, i: nat, f: (C, T) -> seq<Entry>)
    requires i < |xs|
    ensures Flat(c, xs[..i + 1], f) == Flat(c, xs[..i], f) + f(c, xs[i])
  {
    assert xs[..i + 1][..i] == xs[..i];
  }

  lemma {:induction false} FlatConcat<C, T>(c: C, xs: seq<T>, ys: seq<T>, f: (C, T) -> seq<Entry>)
    ensures Flat(c, xs + ys, f) == Flat(c, xs, f) + Flat(c, ys, f)
  {
    if |ys| == 0 {
      assert xs + ys == xs;
    } else {
      var init, last := ys[..|ys| - 1], ys[|ys| - 1];
      assert ys == init + [last];
      assert xs + ys == (xs + init) + [last];
      FlatAppend(c, xs + init, last, f);
      FlatConcat(c, xs, init, f);
      FlatAppend(c, init, last, f);
    }
  }

  /** Changing the entries of one element by `extra` changes the entries
      of the whole concatenation by the same `extra`. */
  lemma FlatReplace<C, T>(c: C, xs: seq<T>, i: nat, x: T, f: (C, T) -> seq<Entry>, extra: multiset<Entry>)
    requires i < |xs| && multiset(f(c, x)) == multiset(f(c, xs[i])) + extra
    ensures multiset(Flat(c, xs[i := x], f)) == multiset(Flat(c, xs, f)) + extra
  {
    var pre, post := xs[..i], xs[i + 1..];
    assert xs == (pre + [xs[i]]) + post;
    assert xs[i := x] == (pre + [x]) + post;
    FlatConcat(c, pre + [xs[i]], post, f);
    FlatConcat(c, pre + [x], post, f);
    FlatAppend(c, pre, xs[i], f);
    FlatAppend(c, pre, x, f);
  }

  /** An entry is in the concatenation iff one element contributes it. */
  lemma {:induction false} FlatMember<C, T>(c: C, xs: seq<T>, f: (C, T) -> seq<Entry>, e: Entry)
    ensures e in Flat(c, xs, f) <==> exists i | 0 <= i < |xs| :: e in f(c, xs[i])
  {
    if |xs| > 0 {
      var init := xs[..|xs| - 1];
      FlatMember(c, init, f, e);
      if e in Flat(c, init, f) {
        var i :| 0 <= i < |init| && e in f(c, init[i]);
        assert xs[i] == init[i];
      }
      if exists i | 0 <= i < |xs| :: e in f(c, xs[i]) {
        var i :| 0 <= i < |xs| && e in f(c, xs[i]);
        if i < |init| {
          assert init[i] == xs[i];
        }
      }
    }
  }

  /** The find-or-insert rule for one configuration below the area ratios
      of a level count: an equal ratio node is reused, otherwise a new one
      holding just this aggregation is appended. A reused leaf gets the
      aggregation appended, unless `unique` is set and the leaf already
      holds it (the batch loader); the stream reader appends duplicates. */
  function PlaceRatio(ars: seq<AreaRatio>, r: real, a: Aggregation, unique: bool): (ars': seq<AreaRatio>)
    ensures |ars| <= |ars'| <= |ars| + 1
    ensures forall k | 0 <= k < |ars| :: ars'[k].value == ars[k].value && |ars'[k].next| >= |ars[k].next|
  {
    var i := Find(ars, r);
    if i == |ars| then ars + [Single(r, a)]
    else if unique && a in ars[i].next then ars
    else ars[i := Param(r, ars[i].next + [a])]
  }

  /** The same rule one level up: an equal level count node is reused,
      otherwise the path count -> ratio -> aggregation is appended. */
  function PlaceLevel(lcs: seq<LevelCount>, n: int, r: real, a: Aggregation, unique: bool): (lcs': seq<LevelCount>)
    ensures |lcs| <= |lcs'| <= |lcs| + 1
    ensures forall k | 0 <= k < |lcs| :: lcs'[k].value == lcs[k].value && |lcs'[k].next| >= |lcs[k].next|
  {
    var i := Find(lcs, n);
    if i == |lcs| then lcs + [Single(n, Single(r, a))]
    else lcs[i := Param(n, PlaceRatio(lcs[i].next, r, a, unique))]
  }

  /** Adding one configuration to the tree: an equal generator node is
      reused, otherwise the whole path is appended as a new generator. */
  function Place(t: Parameters, e: Entry, unique: bool): (t': Parameters)
    ensures |t| <= |t'| <= |t| + 1
    ensures forall k | 0 <= k < |t| :: t'[k].value == t[k].value && |t'[k].next| >= |t[k].next|
  {
    var i := Find(t, e.generator);
    if i == |t| then t + [Path(e.generator, e.levelCount, e.areaRatio, e.aggregation)]
    else t[i := Param(e.generator, PlaceLevel(t[i].next, e.levelCount, e.areaRatio, e.aggregation, unique))]
  }

  /** The configurations added one after the other. */
  function PlaceAll(t: Parameters, es: seq<Entry>, unique: bool): Parameters
  {
    if |es| == 0 then t else Place(PlaceAll(t, es[..|es| - 1], unique), es[|es| - 1], unique)
  }

  /** Adding one more configuration places it into the tree built so far. */
  lemma PlaceAllStep(t: Parameters, es: seq<Entry>, e: Entry, unique: bool)
    ensures PlaceAll(t, es + [e], unique) == Place(PlaceAll(t, es, unique), e, unique)
  {
    assert (es + [e])[..|es|] == es;
  }

  /** The lookup the readers perform: the path generator -> level count ->
      area ratio exists (first match at each level) and its leaf holds the
      aggregation. */
  predicate FoundRatio(ars: seq<AreaRatio>, r: real, a: Aggregation)
  {
    var i := Find(ars, r);
    i < |ars| && a in ars[i].next
  }

  predicate FoundLevel(lcs: seq<LevelCount>, n: int, r: real, a: Aggregation)
  {
    var i := Find(lcs, n);
    i < |lcs| && FoundRatio(lcs[i].next, r, a)
  }

  predicate Found(t: Parameters, e: Entry)
  {
    var i := Find(t, e.generator);
    i < |t| && FoundLevel(t[i].next, e.levelCount, e.areaRatio, e.aggregation)
  }

  /** What adding one configuration contributes to the entries. */
  function Added(e: Entry, skipped: bool): multiset<Entry>
  {
    if skipped then multiset{} else multiset{e}
  }

  lemma OfSingleRatio(g: Generator, n: int, r: real, a: Aggregation)
    ensures OfRatio((g, n), Single(r, a)) == [Entry(g, n, r, a)]
  {
    FlatAppend((g, n, r), [], a, OfAggregation);
    assert [a] == [] + [a];
  }

  lemma RatioEntries(g: Generator, n: int, ars: seq<AreaRatio>, r: real, a: Aggregation, unique: bool)
    ensures multiset(Flat((g, n), PlaceRatio(ars, r, a, unique), OfRatio))
            == multiset(Flat((g, n), ars, OfRatio)) + Added(Entry(g, n, r, a), unique && FoundRatio(ars, r, a))
  {
    var i := Find(ars, r);
    if i == |ars| {
      FlatAppend((g, n), ars, Single(r, a), OfRatio);
      OfSingleRatio(g, n, r, a);
    } else if !(unique && a in ars[i].next) {
      var x := Param(r, ars[i].next + [a]);
      FlatAppend((g, n, r), ars[i].next, a, OfAggregation);
      FlatReplace((g, n), ars, i, x, OfRatio, multiset{Entry(g, n, r, a)});
    }
  }

  lemma LevelEntries(g: Generator, lcs: seq<LevelCount>, n: int, r: real, a: Aggregation, unique: bool)
    ensures multiset(Flat(g, PlaceLevel(lcs, n, r, a, unique), OfLevel))
            == multiset(Flat(g, lcs, OfLevel)) + Added(Entry(g, n, r, a), unique && FoundLevel(lcs, n, r, a))
  {
    var i := Find(lcs, n);
    if i == |lcs| {
      var x := Single(n, Single(r, a));
      FlatAppend(g, lcs, x, OfLevel);
      FlatAppend((g, n), [], Single(r, a), OfRatio);
      assert [Single(r, a)] == [] + [Single(r, a)];
      OfSingleRatio(g, n, r, a);
    } else {
      var x := Param(n, PlaceRatio(lcs[i].next, r, a, unique));
      RatioEntries(g, n, lcs[i].next, r, a, unique);
      FlatReplace(g, lcs, i, x, OfLevel, Added(Entry(g, n, r, a), unique && FoundLevel(lcs, n, r, a)));
    }
  }

  /** Each configuration added contributes exactly one entry, except that
      the batch loader skips one whose leaf already holds the aggregation. */
  lemma PlaceEntries(t: Parameters, e: Entry, unique: bool)
    ensures multiset(Entries(Place(t, e, unique))) == multiset(Entries(t)) + Added(e, unique && Found(t, e))
  {
    var g, n, r, a := e.generator, e.levelCount, e.areaRatio, e.aggregation;
    var i := Find(t, g);
    if i == |t| {
      var p := Path(g, n, r, a);
      FlatAppend((), t, p, OfGenerator);
      FlatAppend(g, [], p.next[0], OfLevel);
      assert [p.next[0]] == [] + [p.next[0]];
      FlatAppend((g, n), [], Single(r, a), OfRatio);
      assert [Single(r, a)] == [] + [Single(r, a)];
      OfSingleRatio(g, n, r, a);
    } else {
      var x := Param(g, PlaceLevel(t[i].next, n, r, a, unique));
      LevelEntries(g, t[i].next, n, r, a, unique);
      FlatReplace((), t, i, x, OfGenerator, Added(e, unique && Found(t, e)));
    }
  }

  /** Without the duplicate check every configuration adds its entry. */
  lemma PlaceEntriesKeep(t: Parameters, e: Entry)
    ensures multiset(Entries(Place(t, e, false))) == multiset(Entries(t)) + multiset{e}
  {
    PlaceEntries(t, e, false);
  }

  /** The stream reader keeps every configuration it reads, duplicates
      included: the entries are exactly the old ones plus the new ones. */
  lemma {:induction false} PlaceAllEntries(t: Parameters, es: seq<Entry>)
    ensures multiset(Entries(PlaceAll(t, es, false))) == multiset(Entries(t)) + multiset(es)
  {
    if |es| > 0 {
      var init, last := es[..|es| - 1], es[|es| - 1];
      assert es == init + [last];
      var before := PlaceAll(t, init, false);
      PlaceAllEntries(t, init);
      PlaceEntriesKeep(before, last);
      MultisetStep(multiset(Entries(PlaceAll(t, es, false))), multiset(Entries(before)), multiset(Entries(t)), init, last, es);
    }
  }

  lemma MultisetStep(after: multiset<Entry>, before: multiset<Entry>, base: multiset<Entry>,
                     init: seq<Entry>, last: Entry, es: seq<Entry>)
    requires before == base + multiset(init) && after == before + multiset{last} && es == init + [last]
    ensures after == base + multiset(es)
  {
  }

  /** The shape both readers maintain: every node has a child and siblings
      hold distinct values, at every level. */
  predicate GoodRatios(ars: seq<AreaRatio>)
  {
    DistinctValues(ars) && forall k | 0 <= k < |ars| :: |ars[k].next| > 0
  }

  predicate GoodLevels(lcs: seq<LevelCount>)
  {
    DistinctValues(lcs) && forall k | 0 <= k < |lcs| :: |lcs[k].next| > 0 && GoodRatios(lcs[k].next)
  }

  predicate GoodTree(t: Parameters)
  {
    DistinctValues(t) && forall k | 0 <= k < |t| :: |t[k].next| > 0 && GoodLevels(t[k].next)
  }

  lemma PlaceRatioGood(ars: seq<AreaRatio>, r: real, a: Aggregation, unique: bool)
    requires GoodRatios(ars)
    ensures GoodRatios(PlaceRatio(ars, r, a, unique))
  {
  }

  lemma PlaceLevelGood(lcs: seq<LevelCount>, n: int, r: real, a: Aggregation, unique: bool)
    requires GoodLevels(lcs)
    ensures GoodLevels(PlaceLevel(lcs, n, r, a, unique))
  {
    var i := Find(lcs, n);
    if i < |lcs| {
      PlaceRatioGood(lcs[i].next, r, a, unique);
    }
  }

  /** Adding a configuration never repeats a node among its siblings and
      never leaves a node without children. */
  lemma PlaceGood(t: Parameters, e: Entry, unique: bool)
    requires GoodTree(t)
    ensures GoodTree(Place(t, e, unique))
  {
    var i := Find(t, e.generator);
    if i < |t| {
      PlaceLevelGood(t[i].next, e.levelCount, e.areaRatio, e.aggregation, unique);
    }
  }

  lemma {:induction false} PlaceAllGood(t: Parameters, es: seq<Entry>, unique: bool)
    requires GoodTree(t)
    ensures GoodTree(PlaceAll(t, es, unique))
  {
    if |es| > 0 {
      PlaceAllGood(t, es[..|es| - 1], unique);
      PlaceGood(PlaceAll(t, es[..|es| - 1], unique), es[|es| - 1], unique);
    }
  }

  /** On a tree of this shape the readers' first-match lookup finds a
      configuration exactly when it is one of the tree's entries. */
  lemma FoundRatioIff(g: Generator, n: int, ars: seq<AreaRatio>, r: real, a: Aggregation)
    requires DistinctValues(ars)
    ensures FoundRatio(ars, r, a) <==> Entry(g, n, r, a) in Flat((g, n), ars, OfRatio)
  {
    var e := Entry(g, n, r, a);
    FlatMember((g, n), ars, OfRatio, e);
    var i := Find(ars, r);
    if FoundRatio(ars, r, a) {
      var m :| 0 <= m < |ars[i].next| && ars[i].next[m] == a;
      FlatMember((g, n, r), ars[i].next, OfAggregation, e);
      assert e in OfAggregation((g, n, r), ars[i].next[m]);
    }
    if e in Flat((g, n), ars, OfRatio) {
      var k :| 0 <= k < |ars| && e in OfRatio((g, n), ars[k]);
      FlatMember((g, n, ars[k].value), ars[k].next, OfAggregation, e);
      var m :| 0 <= m < |ars[k].next| && e in OfAggregation((g, n, ars[k].value), ars[k].next[m]);
      assert ars[k].value == r && ars[k].next[m] == a;
      assert i == k;
    }
  }

  /** Every entry below a node carries the node's path. */
  lemma InRatio(path: (Generator, int), ar: AreaRatio, e: Entry)
    requires e in OfRatio(path, ar)
    ensures e.generator == path.0 && e.levelCount == path.1 && e.areaRatio == ar.value
  {
    FlatMember((path.0, path.1, ar.value), ar.next, OfAggregation, e);
  }

  lemma InLevel(g: Generator, lc: LevelCount, e: Entry)
    requires e in OfLevel(g, lc)
    ensures e.generator == g && e.levelCount == lc.value
  {
    FlatMember((g, lc.value), lc.next, OfRatio, e);
    var q :| 0 <= q < |lc.next| && e in OfRatio((g, lc.value), lc.next[q]);
    InRatio((g, lc.value), lc.next[q], e);
  }

  lemma InGenerator(cs: CenterSphere, e: Entry)
    requires e in OfGenerator((), cs)
    ensures e.generator == cs.value
  {
    FlatMember(cs.value, cs.next, OfLevel, e);
    var m :| 0 <= m < |cs.next| && e in OfLevel(cs.value, cs.next[m]);
    InLevel(cs.value, cs.next[m], e);
  }

  lemma FoundLevelIff(g: Generator, lcs: seq<LevelCount>, n: int, r: real, a: Aggregation)
    requires GoodLevels(lcs)
    ensures FoundLevel(lcs, n, r, a) <==> Entry(g, n, r, a) in Flat(g, lcs, OfLevel)
  {
    var e := Entry(g, n, r, a);
    FlatMember(g, lcs, OfLevel, e);
    var i := Find(lcs, n);
    if i < |lcs| {
      FoundRatioIff(g, n, lcs[i].next, r, a);
    }
    if e in Flat(g, lcs, OfLevel) {
      var k :| 0 <= k < |lcs| && e in OfLevel(g, lcs[k]);
      InLevel(g, lcs[k], e);
      assert i == k;
    }
  }

  lemma FoundIff(t: Parameters, e: Entry)
    requires GoodTree(t)
    ensures Found(t, e) <==> e in Entries(t)
  {
    var g := e.generator;
    FlatMember((), t, OfGenerator, e);
    var i := Find(t, g);
    if i < |t| {
      FoundLevelIff(g, t[i].next, e.levelCount, e.areaRatio, e.aggregation);
    }
    if e in Entries(t) {
      var k :| 0 <= k < |t| && e in OfGenerator((), t[k]);
      InGenerator(t[k], e);
      assert i == k;
    }
  }

  /** No configuration occurs twice among the entries. */
  predicate Once(es: seq<Entry>)
  {
    forall x | x in es :: multiset(es)[x] == 1
  }

  /** The batch loader's rule: the configuration is present afterwards, and
      a tree without repeated configurations stays without them. */
  lemma PlaceUnique(t: Parameters, e: Entry)
    requires GoodTree(t)
    ensures e in Entries(Place(t, e, true))
    ensures Once(Entries(t)) ==> Once(Entries(Place(t, e, true)))
  {
    PlaceEntries(t, e, true);
    FoundIff(t, e);
    var t' := Place(t, e, true);
    assert multiset(Entries(t'))[e] > 0;
  }

  /** The search loop the readers run over one sibling list: the index of
      the first node holding `v`, or the length of the list when none does. */
  method Locate<V(==), N>(ps: seq<Param<V, N>>, v: V) returns (i: nat)
    ensures i == Find(ps, v)
  {
    i := 0;
    while i < |ps| && ps[i].value != v
      invariant i <= |ps|
      invariant forall j | 0 <= j < i :: ps[j].value != v
    {
      i := i + 1;
    }
  }

  /** The readers' find-or-insert, level by level: locate the generator,
      then the level count below it, then the area ratio below that,
      creating only the missing tail of the path. */
  method Insert(t: Parameters, e: Entry, unique: bool) returns (t': Parameters)
    ensures t' == Place(t, e, unique)
  {
    var i := Locate(t, e.generator);
    if i == |t| {
      t' := t + [Path(e.generator, e.levelCount, e.areaRatio, e.aggregation)];
    } else {
      var lcs := t[i].next;
      var j := Locate(lcs, e.levelCount);
      if j == |lcs| {
        lcs := lcs + [Single(e.levelCount, Single(e.areaRatio, e.aggregation))];
      } else {
        var ars := lcs[j].next;
        var k := Locate(ars, e.areaRatio);
        if k == |ars| {
          ars := ars + [Single(e.areaRatio, e.aggregation)];
        } else if !(unique && e.aggregation in ars[k].next) {
          ars := ars[k := Param(e.areaRatio, ars[k].next + [e.aggregation])];
        }
        lcs := lcs[j := Param(e.levelCount, ars)];
      }
      t' := t[i := Param(e.generator, lcs)];
    }
  }
}
