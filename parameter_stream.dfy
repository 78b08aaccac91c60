/**
 * The text form of the sweep parameters (parameters.hpp, parameters.cpp):
 * the two constructors, the reader that rebuilds the tree from numbered
 * rows and the writer that numbers one row per aggregation entry. Number
 * parsing and formatting are not modelled: a row carries its values
 * already parsed.
 */
module ParameterStream {
  import opened SweepTree
  import opened Keywords
  import opened TreeEntries

  /** One parameter row with its fields parsed: the center-sphere volume
      ratio in percent, the number of centers, the level count, the
      equilibrium area ratio in percent and the aggregation keyword. */
  datatype Row = Row(volumePercent: real, centerCount: int, levelCount: int, areaPercent: real, keyword: string)

  /** One written line: its running number and its row. */
  datatype Line = Line(number: nat, row: Row)

  /** The configuration a read row describes: a generator without offset
      whose ratio is the percentage over 100, the area percentage over 100
      and the classified keyword. */
  function RowEntry(row: Row): Entry
  {
    Entry(Generator(ZeroVector, row.volumePercent / 100.0, row.centerCount),
          row.levelCount, row.areaPercent / 100.0, Classify(row.keyword))
  }

  function RowEntries(rows: seq<Row>): (es: seq<Entry>)
    ensures |es| == |rows|
    ensures forall i | 0 <= i < |rows| :: es[i] == RowEntry(rows[i])
  {
    if |rows| == 0 then [] else RowEntries(rows[..|rows| - 1]) + [RowEntry(rows[|rows| - 1])]
  }

  /** The row written for an entry: both ratios times 100 and the fixed
      keyword of the aggregation. The generator's offset is not written. */
  function EntryRow(e: Entry): Row
  {
    Row(e.generator.ratio * 100.0, e.generator.count, e.levelCount, e.areaRatio * 100.0, KeywordOf(e.aggregation))
  }

  /** Reading a written row gives back its entry, as long as the generator
      has no offset (the text has no column for one). */
  lemma RowRoundTrip(e: Entry)
    requires e.generator.offset == ZeroVector
    ensures RowEntry(EntryRow(e)) == e
  {
    ClassifyKeywordOf(e.aggregation);
  }

  /** An offset is lost on the way through the text. */
  lemma OffsetLost(e: Entry)
    ensures RowEntry(EntryRow(e)).generator.offset == ZeroVector
  {
  }

  /** The lines written for entries, numbered on from `start`. */
  function Numbered(es: seq<Entry>, start: nat): seq<Line>
  {
    seq(|es|, i requires 0 <= i < |es| => Line(start + i + 1, EntryRow(es[i])))
  }

  function LineRows(ls: seq<Line>): (rows: seq<Row>)
    ensures |rows| == |ls|
    ensures forall i | 0 <= i < |ls| :: rows[i] == ls[i].row
  {
    if |ls| == 0 then [] else LineRows(ls[..|ls| - 1]) + [ls[|ls| - 1].row]
  }

  lemma NumberedConcat(a: seq<Entry>, b: seq<Entry>, start: nat)
    ensures Numbered(a + b, start) == Numbered(a, start) + Numbered(b, start + |a|)
  {
  }

  /** The tree the reader builds from its rows, starting from nothing. */
  function ReadTree(rows: seq<Row>): Parameters
  {
    PlaceAll([], RowEntries(rows), false)
  }

  /** Reading keeps every row as one entry, duplicates included, and
      builds a tree without repeated siblings or childless nodes. */
  lemma ReadEntries(rows: seq<Row>)
    ensures multiset(Entries(ReadTree(rows))) == multiset(RowEntries(rows))
    ensures |Entries(ReadTree(rows))| == |rows|
    ensures GoodTree(ReadTree(rows))
  {
    PlaceAllEntries([], RowEntries(rows));
    assert Entries([]) == [];
    PlaceAllGood([], RowEntries(rows), false);
    assert |multiset(Entries(ReadTree(rows)))| == |multiset(RowEntries(rows))|;
  }

  /** Writing a tree whose generators have no offset and reading the text
      back gives a tree with the same entries, each as often as before. */
  lemma {:induction false} WriteThenRead(t: Parameters)
    requires forall i | 0 <= i < |t| :: t[i].value.offset == ZeroVector
    ensures multiset(Entries(ReadTree(LineRows(Numbered(Entries(t), 0))))) == multiset(Entries(t))
  {
    var es := Entries(t);
    var rows := LineRows(Numbered(es, 0));
    ReadEntries(rows);
    forall i | 0 <= i < |es|
      ensures RowEntries(rows)[i] == es[i]
    {
      FlatMember((), t, OfGenerator, es[i]);
      var k :| 0 <= k < |t| && es[i] in OfGenerator((), t[k]);
      InGenerator(t[k], es[i]);
      RowRoundTrip(es[i]);
    }
    assert RowEntries(rows) == es;
  }

  /** The first level count of the first path, as its name promises. */
  function FirstLevelCount(t: Parameters): int
    requires |t| > 0 && |t[0].next| > 0
  {
    t[0].next[0].value
  }

  /** `first_level_count` as written: it descends one level too far and
      returns the first area ratio. */
  function FirstLevelCountAsWritten(t: Parameters): real
    requires |t| > 0 && |t[0].next| > 0 && |t[0].next[0].next| > 0
  {
    t[0].next[0].next[0].value
  }

  /** On a one-path tree the corrected accessor returns the path's level
      count and the written one its area ratio. */
  lemma FirstLevelCountOfPath(g: Generator, n: int, r: real, a: Aggregation, rest: Parameters)
    ensures FirstLevelCount([Path(g, n, r, a)] + rest) == n
    ensures FirstLevelCountAsWritten([Path(g, n, r, a)] + rest) == r
  {
  }

  /** The default parameters show the difference: level count 100, but the
      written accessor yields 0.01. */
  lemma FirstLevelCountDefault()
    ensures FirstLevelCount([Path(DefaultGenerator, 100, 0.01, FIRST)]) == 100
    ensures FirstLevelCountAsWritten([Path(DefaultGenerator, 100, 0.01, FIRST)]) == 0.01
  {
    FirstLevelCountOfPath(DefaultGenerator, 100, 0.01, FIRST, []);
    assert [Path(DefaultGenerator, 100, 0.01, FIRST)] + [] == [Path(DefaultGenerator, 100, 0.01, FIRST)];
  }

  /** A one-path tree holds exactly the one configuration of its path. */
  lemma PathEntries(e: Entry)
    ensures Entries([Path(e.generator, e.levelCount, e.areaRatio, e.aggregation)]) == [e]
    ensures GoodTree([Path(e.generator, e.levelCount, e.areaRatio, e.aggregation)])
  {
    PlaceAllEntries([], [e]);
    PlaceAllGood([], [e], false);
    assert [e][..0] == [];
    assert Entries([]) == [];
    var t := [Path(e.generator, e.levelCount, e.areaRatio, e.aggregation)];
    assert PlaceAll([], [e], false) == t;
    assert multiset(Entries(t)) == multiset{e};
    var es := Entries(t);
    assert |es| == 1 && es[0] in multiset(es);
  }

  /** The writer's innermost loop: one line per aggregation of a ratio. */
  method WriteRatio(g: Generator, n: int, ar: AreaRatio, count: nat) returns (lines: seq<Line>, count': nat)
    ensures lines == Numbered(OfRatio((g, n), ar), count)
    ensures count' == count + |OfRatio((g, n), ar)|
  {
    lines, count' := [], count;
    var path := (g, n, ar.value);
    var k := 0;
    while k < |ar.next|
      invariant k <= |ar.next|
      invariant lines == Numbered(Flat(path, ar.next[..k], OfAggregation), count)
      invariant count' == count + |Flat(path, ar.next[..k], OfAggregation)|
    {
      count' := count' + 1;
      var line := Line(count', EntryRow(Entry(g, n, ar.value, ar.next[k])));
      assert ar.next[..k + 1] == ar.next[..k] + [ar.next[k]];
      FlatAppend(path, ar.next[..k], ar.next[k], OfAggregation);
      NumberedConcat(Flat(path, ar.next[..k], OfAggregation), OfAggregation(path, ar.next[k]), count);
      lines := lines + [line];
      k := k + 1;
    }
    assert ar.next[..k] == ar.next;
  }

  method WriteLevel(g: Generator, lc: LevelCount, count: nat) returns (lines: seq<Line>, count': nat)
    ensures lines == Numbered(OfLevel(g, lc), count)
    ensures count' == count + |OfLevel(g, lc)|
  {
    lines, count' := [], count;
    var path := (g, lc.value);
    var j := 0;
    while j < |lc.next|
      invariant j <= |lc.next|
      invariant lines == Numbered(Flat(path, lc.next[..j], OfRatio), count)
      invariant count' == count + |Flat(path, lc.next[..j], OfRatio)|
    {
      var more, c := WriteRatio(g, lc.value, lc.next[j], count');
      assert lc.next[..j + 1] == lc.next[..j] + [lc.next[j]];
      FlatAppend(path, lc.next[..j], lc.next[j], OfRatio);
      NumberedConcat(Flat(path, lc.next[..j], OfRatio), OfRatio(path, lc.next[j]), count);
      lines, count' := lines + more, c;
      j := j + 1;
    }
    assert lc.next[..j] == lc.next;
  }

  method WriteGenerator(cs: CenterSphere, count: nat) returns (lines: seq<Line>, count': nat)
    ensures lines == Numbered(OfGenerator((), cs), count)
    ensures count' == count + |OfGenerator((), cs)|
  {
    lines, count' := [], count;
    var i := 0;
    while i < |cs.next|
      invariant i <= |cs.next|
      invariant lines == Numbered(Flat(cs.value, cs.next[..i], OfLevel), count)
      invariant count' == count + |Flat(cs.value, cs.next[..i], OfLevel)|
    {
      var more, c := WriteLevel(cs.value, cs.next[i], count');
      assert cs.next[..i + 1] == cs.next[..i] + [cs.next[i]];
      FlatAppend(cs.value, cs.next[..i], cs.next[i], OfLevel);
      NumberedConcat(Flat(cs.value, cs.next[..i], OfLevel), OfLevel(cs.value, cs.next[i]), count);
      lines, count' := lines + more, c;
      i := i + 1;
    }
    assert cs.next[..i] == cs.next;
  }

  /**
   * The `Parameters` object: the tree and the number of rows read so far.
   */
  class SweepParameters {
    var next: Parameters
    var totalCount: nat

    /** The default: one path, default generator -> 100 levels -> area
        ratio 0.01 -> FIRST, and no rows counted. */
    constructor ()
      ensures next == [Path(DefaultGenerator, 100, 0.01, FIRST)] && totalCount == 0
      ensures Entries(next) == [Entry(DefaultGenerator, 100, 0.01, FIRST)] && GoodTree(next)
    {
      next := [Path(DefaultGenerator, 100, 0.01, FIRST)];
      totalCount := 0;
      PathEntries(Entry(DefaultGenerator, 100, 0.01, FIRST));
    }

    /** One path: a generator offset by (x, y, z) with ratio 0 and one
        center -> `count` levels -> area ratio `amin` -> FIRST. */
    constructor WithValues(count: int, amin: real, x: real, y: real, z: real)
      ensures next == [Path(Generator(Vector3(x, y, z), 0.0, 1), count, amin, FIRST)] && totalCount == 0
      ensures Entries(next) == [Entry(Generator(Vector3(x, y, z), 0.0, 1), count, amin, FIRST)] && GoodTree(next)
    {
      var e := Entry(Generator(Vector3(x, y, z), 0.0, 1), count, amin, FIRST);
      next := [Path(e.generator, count, amin, FIRST)];
      totalCount := 0;
      PathEntries(e);
    }

    /** `operator>>`: the tree is cleared and rebuilt from the rows, while
        the row count keeps growing from its old value. */
    method Read(rows: seq<Row>)
      modifies this
      ensures next == ReadTree(rows)
      ensures totalCount == old(totalCount) + |rows|
    {
      next := [];
      var i := 0;
      while i < |rows|
        invariant i <= |rows|
        invariant next == ReadTree(rows[..i])
        invariant totalCount == old(totalCount) + i
      {
        var e := RowEntry(rows[i]);
        totalCount := totalCount + 1;
        assert rows[..i + 1] == rows[..i] + [rows[i]];
        assert RowEntries(rows[..i + 1]) == RowEntries(rows[..i]) + [e];
        next := Insert(next, e, false);
        i := i + 1;
      }
      assert rows[..i] == rows;
    }

    /** `operator<<`: one line per aggregation entry, in tree order,
        numbered 1, 2, 3, ... */
    method Write() returns (lines: seq<Line>)
      ensures lines == Numbered(Entries(next), 0)
    {
      lines := [];
      var count := 0;
      var i := 0;
      while i < |next|
        invariant i <= |next|
        invariant lines == Numbered(Flat((), next[..i], OfGenerator), 0)
        invariant count == |Flat((), next[..i], OfGenerator)|
      {
        var more, c := WriteGenerator(next[i], count);
        assert next[..i + 1] == next[..i] + [next[i]];
        FlatAppend((), next[..i], next[i], OfGenerator);
        NumberedConcat(Flat((), next[..i], OfGenerator), OfGenerator((), next[i]), 0);
        lines, count := lines + more, c;
        i := i + 1;
      }
      assert next[..i] == next;
    }
  }
}
