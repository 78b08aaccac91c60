/**
 * The batch table (model/batch.cpp): a semicolon-separated table whose
 * first block is free text, whose second block lists the parameter rows
 * and whose third block lists the files to process. `load_batch_file`
 * reads the parameter tree and the file names out of it; `save_batch_file`
 * widens the table by the result columns and fills them in. The table is
 * a sequence of rows of cells; reading and writing the file, and the
 * conversions between numbers and text, are outside the model and come in
 * as the functions of a `Numbers` value.
 */
module BatchTable {
  import opened Options
  import opened SweepTree
  import opened Keywords
  import opened TreeEntries

  type Table = seq<seq<string>>

  /** The number conversions of the C++ library the table code calls:
      `stod_coma` (never fails), `std::stoi` (None where it throws),
      `to_string_coma`, `std::to_string` on a float and on an index. */
  datatype Numbers = Numbers(
    parseReal: string -> real,
    parseInt: string -> Option<int>,
    showReal: real -> string,
    showFloat: real -> string,
    showIndex: nat -> string)

  /** A row that ends a block: empty, or with an empty first cell. */
  predicate Blank(row: seq<string>)
  {
    |row| == 0 || |row[0]| == 0
  }

  /** The first blank row at or after `from`, or None when the table ends
      first (where `table.at` throws). */
  function NextBlank(table: Table, from: nat): (b: Option<nat>)
    decreases |table| - from
    ensures b.Some? ==> from <= b.value < |table| && Blank(table[b.value])
    ensures b.Some? ==> forall r | from <= r < b.value :: !Blank(table[r])
    ensures b.None? ==> forall r | from <= r < |table| :: !Blank(table[r])
  {
    if from >= |table| then None
    else if Blank(table[from]) then Some(from)
    else NextBlank(table, from + 1)
  }

  /** The row cursor loop "skip to empty row". */
  method SkipToBlank(table: Table, from: nat) returns (b: Option<nat>)
    ensures b == NextBlank(table, from)
  {
    var row := from;
    while row < |table| && !Blank(table[row])
      invariant from <= row
      invariant NextBlank(table, from) == NextBlank(table, row)
      decreases |table| - row
    {
      row := row + 1;
    }
    b := if row < |table| then Some(row) else None;
  }

  /** One parameter row: cells 1 to 5 hold the volume ratio and the area
      ratio in percent, the center count, the level count and the keyword.
      None where a cell is missing or an integer does not parse. */
  function ParseRow(row: seq<string>, nums: Numbers): (e: Option<Entry>)
    ensures e.Some? <==> |row| >= 6 && nums.parseInt(row[2]).Some? && nums.parseInt(row[3]).Some?
    ensures e.Some? ==> e.value.generator.offset == ZeroVector && e.value.aggregation == Classify(row[5])
  {
    if |row| < 6 then None
    else
      var count, levels := nums.parseInt(row[2]), nums.parseInt(row[3]);
      if count.None? || levels.None? then None
      else
        Some(Entry(Generator(ZeroVector, nums.parseReal(row[1]) / 100.0, count.value), levels.value,
                   nums.parseReal(row[4]) / 100.0, Classify(row[5])))
  }

  /** The parameter block read from row `from` on: the configurations of
      the rows up to the next blank row, and that blank row; None in the
      first component when the table ends or a row fails to parse before a
      blank row is reached (the rows parsed until then are still listed). */
  function ParamBlock(table: Table, from: nat, nums: Numbers): (r: (Option<nat>, seq<Entry>))
    decreases |table| - from
    ensures r.0.Some? ==> from <= r.0.value < |table| && Blank(table[r.0.value]) && |r.1| == r.0.value - from
  {
    if from >= |table| then (None, [])
    else if Blank(table[from]) then (Some(from), [])
    else
      match ParseRow(table[from], nums)
      case None => (None, [])
      case Some(e) =>
        var rest := ParamBlock(table, from + 1, nums);
        (rest.0, [e] + rest.1)
  }

  /** The file names: cell 1 of each row from `from` to the end, stopping
      at a row too short to have one (where `at(1)` throws). */
  function FileNames(table: Table, from: nat): (names: seq<string>)
    decreases |table| - from
  {
    if from >= |table| || |table[from]| < 2 then []
    else [table[from][1]] + FileNames(table, from + 1)
  }

  /** The parameter loop of the loader: each row of the block is placed
      into the tree until the blank row, the end of the table or a row
      that does not parse. */
  method ReadBlock(table: Table, start: nat, parameters: Parameters, nums: Numbers)
    returns (parameters': Parameters, end: Option<nat>)
    ensures end == ParamBlock(table, start, nums).0
    ensures parameters' == PlaceAll(parameters, ParamBlock(table, start, nums).1, true)
  {
    parameters' := parameters;
    var row := start;
    ghost var read: seq<Entry> := [];
    assert read + ParamBlock(table, row, nums).1 == ParamBlock(table, row, nums).1;
    while row < |table| && !Blank(table[row])
      invariant start <= row
      invariant ParamBlock(table, start, nums) == (ParamBlock(table, row, nums).0, read + ParamBlock(table, row, nums).1)
      invariant parameters' == PlaceAll(parameters, read, true)
      decreases |table| - row
    {
      var e := ParseRow(table[row], nums);
      if e.None? {
        assert ParamBlock(table, row, nums) == (None, []);
        assert read + [] == read;
        return parameters', None;
      }
      var next := ParamBlock(table, row + 1, nums);
      assert read + ([e.value] + next.1) == (read + [e.value]) + next.1;
      assert ParamBlock(table, row, nums) == (next.0, [e.value] + next.1);
      PlaceAllStep(parameters, read, e.value, true);
      parameters' := Insert(parameters', e.value, true);
      read := read + [e.value];
      row := row + 1;
    }
    assert read + [] == read;
    end := if row < |table| then Some(row) else None;
  }

  /** The file loop of the loader: cell 1 of each row to the end. */
  method ReadFileNames(table: Table, from: nat) returns (names: seq<string>)
    ensures names == FileNames(table, from)
  {
    names := [];
    var row := from;
    assert names + FileNames(table, row) == FileNames(table, row);
    while row < |table| && |table[row]| >= 2
      invariant from <= row
      invariant FileNames(table, from) == names + FileNames(table, row)
      decreases |table| - row
    {
      assert FileNames(table, row) == [table[row][1]] + FileNames(table, row + 1);
      names := names + [table[row][1]];
      row := row + 1;
    }
    assert names + [] == names;
  }

  /** The block lists the configuration of each row it covers, in order. */
  lemma {:induction false} ParamBlockRows(table: Table, from: nat, nums: Numbers)
    decreases |table| - from
    ensures var r := ParamBlock(table, from, nums);
            && (|r.1| > 0 ==> from + |r.1| <= |table|)
            && forall row | from <= row < from + |r.1| :: !Blank(table[row]) && ParseRow(table[row], nums) == Some(r.1[row - from])
  {
    if from < |table| && !Blank(table[from]) && ParseRow(table[from], nums).Some? {
      ParamBlockRows(table, from + 1, nums);
    }
  }

  /** The file names are cell 1 of every row from `from` on, up to the end
      of the table or to the first row that has no cell 1. */
  lemma {:induction false} FileNamesRows(table: Table, from: nat)
    decreases |table| - from
    ensures var names := FileNames(table, from);
            && (|names| > 0 ==> from + |names| <= |table|)
            && (forall row | from <= row < from + |names| :: |table[row]| >= 2 && names[row - from] == table[row][1])
            && (from + |names| < |table| ==> |table[from + |names|]| < 2)
  {
    if from < |table| && |table[from]| >= 2 {
      FileNamesRows(table, from + 1);
    }
  }

  /** What `load_batch_file` leaves: with no blank row nothing is added;
      otherwise the configurations of the parameter block three rows below
      it are placed into the tree, and when that block ends in a blank row
      the file names from three rows below that are appended. */
  function Loaded(table: Table, parameters: Parameters, files: seq<string>, nums: Numbers): (Parameters, seq<string>)
  {
    match NextBlank(table, 0)
    case None => (parameters, files)
    case Some(b) => LoadedBlock(table, b + 3, parameters, files, nums)
  }

  /** What the loader leaves once it reads the parameter block from row
      `start` on. */
  function LoadedBlock(table: Table, start: nat, parameters: Parameters, files: seq<string>, nums: Numbers): (Parameters, seq<string>)
  {
    var block := ParamBlock(table, start, nums);
    (PlaceAll(parameters, block.1, true), if block.0.None? then files else files + FileNames(table, block.0.value + 3))
  }

  /**
   * `load_batch_file`: find the first blank row, read the parameter rows
   * starting three rows below it up to the next blank row into the tree,
   * then take the file names from three rows below that. An exception
   * ends the load where it happens; what was added until then stays.
   */
  method LoadBatch(table: Table, parameters: Parameters, files: seq<string>, nums: Numbers)
    returns (parameters': Parameters, files': seq<string>)
    ensures (parameters', files') == Loaded(table, parameters, files, nums)
  {
    parameters', files' := parameters, files;
    var b := SkipToBlank(table, 0);
    if b.Some? {
      parameters', files' := LoadBlock(table, b.value + 3, parameters, files, nums);
    }
  }

  /** The loader from the parameter block on: its rows into the tree, then
      the file names three rows below the blank row that ends it. */
  method LoadBlock(table: Table, start: nat, parameters: Parameters, files: seq<string>, nums: Numbers)
    returns (parameters': Parameters, files': seq<string>)
    ensures (parameters', files') == LoadedBlock(table, start, parameters, files, nums)
  {
    var end;
    parameters', end := ReadBlock(table, start, parameters, nums);
    files' := files;
    if end.Some? {
      var names := ReadFileNames(table, end.value + 3);
      files' := files + names;
    }
  }

  /** Placing a configuration uniquely adds exactly that configuration. */
  lemma PlaceMembers(t: Parameters, e: Entry)
    requires GoodTree(t)
    ensures forall x :: x in Entries(Place(t, e, true)) <==> x in Entries(t) || x == e
  {
    PlaceEntries(t, e, true);
    FoundIff(t, e);
    forall x
      ensures x in Entries(Place(t, e, true)) <==> x in Entries(t) || x == e
    {
      assert x in Entries(Place(t, e, true)) <==> x in multiset(Entries(Place(t, e, true)));
      assert x in Entries(t) <==> x in multiset(Entries(t));
    }
  }

  /** The loaded tree contains exactly the old configurations and the
      block's, and keeps the shape the readers maintain. */
  lemma {:induction false} LoadedMembers(t: Parameters, es: seq<Entry>)
    requires GoodTree(t)
    ensures GoodTree(PlaceAll(t, es, true))
    ensures forall x :: x in Entries(PlaceAll(t, es, true)) <==> x in Entries(t) || x in es
  {
    PlaceAllGood(t, es, true);
    if |es| > 0 {
      var init, last := es[..|es| - 1], es[|es| - 1];
      var before := PlaceAll(t, init, true);
      assert PlaceAll(t, es, true) == Place(before, last, true);
      LoadedMembers(t, init);
      PlaceMembers(before, last);
      assert es == init + [last];
      assert forall x :: x in es <==> x in init || x == last;
    }
  }

  /** Loading never lists a configuration twice in a tree that did not. */
  lemma {:induction false} LoadedOnce(t: Parameters, es: seq<Entry>)
    requires GoodTree(t) && Once(Entries(t))
    ensures Once(Entries(PlaceAll(t, es, true)))
  {
    if |es| > 0 {
      var init, last := es[..|es| - 1], es[|es| - 1];
      var before := PlaceAll(t, init, true);
      assert PlaceAll(t, es, true) == Place(before, last, true);
      LoadedOnce(t, init);
      PlaceAllGood(t, init, true);
      PlaceUnique(before, last);
    }
  }

  /** A row cut or padded with empty cells to exactly `w` cells. */
  function Resize(row: seq<string>, w: nat): (r: seq<string>)
    ensures |r| == w
    ensures forall c | 0 <= c < w :: r[c] == if c < |row| then row[c] else ""
  {
    if |row| >= w then row[..w] else row + seq(w - |row|, _ => "")
  }

  /** The index of the first empty header cell at or after `from`, or
      the header's length. */
  function ColumnCount(header: seq<string>, from: nat := 0): (cc: nat)
    requires from <= |header|
    decreases |header| - from
    ensures from <= cc <= |header|
    ensures forall c | from <= c < cc :: |header[c]| > 0
    ensures cc < |header| ==> |header[cc]| == 0
  {
    if from == |header| || |header[from]| == 0 then from else ColumnCount(header, from + 1)
  }

  method CountColumns(header: seq<string>) returns (cc: nat)
    ensures cc == ColumnCount(header)
  {
    cc := 0;
    while cc < |header| && |header[cc]| > 0
      invariant cc <= |header|
      invariant ColumnCount(header) == ColumnCount(header, cc)
    {
      cc := cc + 1;
    }
  }

  /** The width of the saved table: the original columns, an empty column,
      eleven mesh properties, and for each parameter row an empty column and
      four result columns. */
  function Width(cc: nat, n: nat): nat
  {
    cc + 12 + 5 * n
  }

  /** Column `c` at or after `cc + 12` lies in the five-column block of
      parameter row `(c - cc - 12) / 5`, at position `(c - cc - 12) % 5`. */
  lemma BlockOf(c: int, cc: nat, i: nat)
    requires cc + 12 <= c
    ensures c < Width(cc, i) <==> (c - cc - 12) / 5 < i
    ensures Width(cc, i) <= c < Width(cc, i + 1) ==> (c - cc - 12) / 5 == i && (c - cc - 12) % 5 == c - Width(cc, i)
  {
  }

  /** The index row with the indexes of the first `n` parameter rows
      above their S columns. */
  function IndexRow(row: seq<string>, cc: nat, n: nat, nums: Numbers): seq<string>
  {
    seq(|row|, c requires 0 <= c < |row| =>
      if cc + 12 <= c < cc + 12 + 5 * n && (c - cc - 12) % 5 == 0 then nums.showIndex((c - cc - 12) / 5) else row[c])
  }

  method WriteIndexRow(row: seq<string>, cc: nat, n: nat, nums: Numbers) returns (row': seq<string>)
    requires |row| == Width(cc, n)
    ensures row' == IndexRow(row, cc, n, nums)
  {
    row' := row;
    assert row' == IndexRow(row, cc, 0, nums) by {
      forall c | 0 <= c < |row| ensures row[c] == IndexRow(row, cc, 0, nums)[c] { }
    }
    for i := 0 to n
      invariant row' == IndexRow(row, cc, i, nums)
    {
      IndexRowStep(row, cc, i, nums);
      row' := row'[cc + 12 + 5 * i := nums.showIndex(i)];
    }
  }

  lemma IndexRowStep(row: seq<string>, cc: nat, i: nat, nums: Numbers)
    requires Width(cc, i + 1) <= |row|
    ensures IndexRow(row, cc, i + 1, nums) == IndexRow(row, cc, i, nums)[Width(cc, i) := nums.showIndex(i)]
  {
    var after := IndexRow(row, cc, i, nums)[Width(cc, i) := nums.showIndex(i)];
    forall c | 0 <= c < |row| ensures IndexRow(row, cc, i + 1, nums)[c] == after[c] {
      if cc + 12 <= c {
        BlockOf(c, cc, i);
        BlockOf(c, cc, i + 1);
      }
    }
  }

  const MeshLabels: seq<string> := ["A", "V", "a", "b", "c", "K", "T", "c/a", "b/a", "Ibody", "Iproj"]
  const ResultLabels: seq<string> := ["S", "U", "Reeb", "Morse"]

  /** The header row: the mesh property labels after the original columns
      and S, U, Reeb, Morse for each of the first `n` parameter rows. */
  function HeaderRow(row: seq<string>, cc: nat, n: nat): seq<string>
  {
    seq(|row|, c requires 0 <= c < |row| =>
      if cc + 1 <= c <= cc + 11 then MeshLabels[c - cc - 1]
      else if cc + 12 <= c < cc + 12 + 5 * n && (c - cc - 12) % 5 < 4 then ResultLabels[(c - cc - 12) % 5]
      else row[c])
  }

  method WriteHeaderRow(row: seq<string>, cc: nat, n: nat) returns (row': seq<string>)
    requires |row| == Width(cc, n)
    ensures row' == HeaderRow(row, cc, n)
  {
    row' := row;
    for k := 0 to 11
      invariant |row'| == |row|
      invariant forall c | 0 <= c < |row| :: row'[c] == if cc + 1 <= c < cc + 1 + k then MeshLabels[c - cc - 1] else row[c]
    {
      row' := row'[cc + 1 + k := MeshLabels[k]];
    }
    assert row' == HeaderRow(row, cc, 0) by {
      forall c | 0 <= c < |row| ensures row'[c] == HeaderRow(row, cc, 0)[c] { }
    }
    for i := 0 to n
      invariant row' == HeaderRow(row, cc, i)
    {
      HeaderRowStep(row, cc, i);
      row' := row'[cc + 12 + 5 * i := "S"][cc + 13 + 5 * i := "U"][cc + 14 + 5 * i := "Reeb"][cc + 15 + 5 * i := "Morse"];
    }
  }

  lemma HeaderRowStep(row: seq<string>, cc: nat, i: nat)
    requires Width(cc, i + 1) <= |row|
    ensures var w := Width(cc, i);
            HeaderRow(row, cc, i + 1) == HeaderRow(row, cc, i)[w := "S"][w + 1 := "U"][w + 2 := "Reeb"][w + 3 := "Morse"]
  {
    var w := Width(cc, i);
    var after := HeaderRow(row, cc, i)[w := "S"][w + 1 := "U"][w + 2 := "Reeb"][w + 3 := "Morse"];
    forall c | 0 <= c < |row| ensures HeaderRow(row, cc, i + 1)[c] == after[c] {
      if cc + 12 <= c {
        BlockOf(c, cc, i);
        BlockOf(c, cc, i + 1);
      }
    }
  }

  /** The results of one configuration of one file. */
  datatype Surm = Surm(stable: real, unstable: real, reeb: string, morse: string)

  /** The results of one file: its mesh properties and the results per
      configuration. */
  datatype FileResults = FileResults(area: real, volume: real, a: real, b: real, c: real,
                                     projCircumference: real, projArea: real, surm: map<Entry, Surm>)

  function MeshCells(d: FileResults): seq<real>
  {
    [d.area, d.volume, d.a, d.b, d.c, d.projCircumference, d.projArea]
  }

  function SurmCells(s: Surm, nums: Numbers): seq<string>
  {
    [nums.showFloat(s.stable), nums.showFloat(s.unstable), s.reeb, s.morse]
  }

  /** The seven mesh properties after the original columns. */
  function MeshRow(row: seq<string>, cc: nat, d: FileResults, nums: Numbers): seq<string>
  {
    seq(|row|, c requires 0 <= c < |row| => if cc + 1 <= c <= cc + 7 then nums.showReal(MeshCells(d)[c - cc - 1]) else row[c])
  }

  /** The four results of each configuration in `sigs`, or "error" in its
      S column when the file has no results for it. */
  function SurmRow(row: seq<string>, cc: nat, sigs: seq<Entry>, d: FileResults, nums: Numbers): seq<string>
  {
    seq(|row|, c requires 0 <= c < |row| =>
      if cc + 12 <= c < cc + 12 + 5 * |sigs| && (c - cc - 12) % 5 < 4 then
        var i, k := (c - cc - 12) / 5, (c - cc - 12) % 5;
        if sigs[i] in d.surm then SurmCells(d.surm[sigs[i]], nums)[k]
        else if k == 0 then "error" else row[c]
      else row[c])
  }

  /** A file row of the saved table: with results for the file named in
      its cell 1, the mesh properties and the results per configuration;
      without, "error" after the original columns. */
  function ResultRow(row: seq<string>, cc: nat, sigs: seq<Entry>, results: map<string, FileResults>, nums: Numbers): seq<string>
    requires |row| == Width(cc, |sigs|)
  {
    if row[1] in results then SurmRow(MeshRow(row, cc, results[row[1]], nums), cc, sigs, results[row[1]], nums)
    else row[cc + 1 := "error"]
  }

  method WriteResultRow(row: seq<string>, cc: nat, sigs: seq<Entry>, results: map<string, FileResults>, nums: Numbers)
    returns (row': seq<string>)
    requires |row| == Width(cc, |sigs|)
    ensures row' == ResultRow(row, cc, sigs, results, nums)
  {
    if row[1] !in results {
      return row[cc + 1 := "error"];
    }
    var d := results[row[1]];
    row' := WriteMesh(row, cc, d, nums);
    row' := WriteSurm(row', cc, sigs, d, nums);
  }

  method WriteMesh(row: seq<string>, cc: nat, d: FileResults, nums: Numbers) returns (row': seq<string>)
    requires cc + 7 < |row|
    ensures row' == MeshRow(row, cc, d, nums)
  {
    row' := row;
    var mesh := MeshCells(d);
    for k := 0 to 7
      invariant |row'| == |row|
      invariant forall c | 0 <= c < |row| :: row'[c] == if cc + 1 <= c < cc + 1 + k then nums.showReal(mesh[c - cc - 1]) else row[c]
    {
      row' := row'[cc + 1 + k := nums.showReal(mesh[k])];
    }
  }

  method WriteSurm(row: seq<string>, cc: nat, sigs: seq<Entry>, d: FileResults, nums: Numbers) returns (row': seq<string>)
    requires Width(cc, |sigs|) <= |row|
    ensures row' == SurmRow(row, cc, sigs, d, nums)
  {
    row' := row;
    SurmRowNone(row, cc, d, nums);
    assert sigs[..0] == [];
    for j := 0 to |sigs|
      invariant row' == SurmRow(row, cc, sigs[..j], d, nums)
    {
      SurmRowStep(row, cc, sigs, j, d, nums);
      var w := Width(cc, j);
      if sigs[j] in d.surm {
        var cells := SurmCells(d.surm[sigs[j]], nums);
        row' := row'[w := cells[0]][w + 1 := cells[1]][w + 2 := cells[2]][w + 3 := cells[3]];
      } else {
        row' := row'[w := "error"];
      }
    }
    assert sigs[..|sigs|] == sigs;
  }

  lemma SurmRowStep(row: seq<string>, cc: nat, sigs: seq<Entry>, j: nat, d: FileResults, nums: Numbers)
    requires j < |sigs| && Width(cc, |sigs|) <= |row|
    ensures var w := Width(cc, j);
            var before := SurmRow(row, cc, sigs[..j], d, nums);
            SurmRow(row, cc, sigs[..j + 1], d, nums) ==
              if sigs[j] in d.surm then
                var s := SurmCells(d.surm[sigs[j]], nums);
                before[w := s[0]][w + 1 := s[1]][w + 2 := s[2]][w + 3 := s[3]]
              else before[w := "error"]
  {
    var w := Width(cc, j);
    var prefix := sigs[..j + 1];
    assert prefix[..j] == sigs[..j];
    var before := SurmRow(row, cc, sigs[..j], d, nums);
    var after := if sigs[j] in d.surm then
                   var s := SurmCells(d.surm[sigs[j]], nums);
                   before[w := s[0]][w + 1 := s[1]][w + 2 := s[2]][w + 3 := s[3]]
                 else before[w := "error"];
    forall c | 0 <= c < |row| ensures SurmRow(row, cc, prefix, d, nums)[c] == after[c] {
      if cc + 12 <= c {
        BlockOf(c, cc, j);
        BlockOf(c, cc, j + 1);
      }
    }
  }

  lemma SurmRowNone(row: seq<string>, cc: nat, d: FileResults, nums: Numbers)
    ensures SurmRow(row, cc, [], d, nums) == row
  {
    forall c | 0 <= c < |row| ensures SurmRow(row, cc, [], d, nums)[c] == row[c] { }
  }

  /** The parameter loop of the saver: the configurations of the block. */
  method ReadSignatures(table: Table, start: nat, nums: Numbers) returns (sigs: seq<Entry>, end: Option<nat>)
    ensures (end, sigs) == ParamBlock(table, start, nums)
  {
    sigs := [];
    var row := start;
    assert sigs + ParamBlock(table, row, nums).1 == ParamBlock(table, row, nums).1;
    while row < |table| && !Blank(table[row])
      invariant start <= row
      invariant ParamBlock(table, start, nums) == (ParamBlock(table, row, nums).0, sigs + ParamBlock(table, row, nums).1)
      decreases |table| - row
    {
      var e := ParseRow(table[row], nums);
      if e.None? {
        assert sigs + [] == sigs;
        return sigs, None;
      }
      var next := ParamBlock(table, row + 1, nums);
      assert ParamBlock(table, row, nums) == (next.0, [e.value] + next.1);
      assert sigs + ([e.value] + next.1) == (sigs + [e.value]) + next.1;
      sigs := sigs + [e.value];
      row := row + 1;
    }
    assert sigs + [] == sigs;
    end := if row < |table| then Some(row) else None;
  }

  /** The header block's position: the blank row ending the parameter
      rows and the configurations of those rows; None where the saver
      throws before writing (no blank row, a row that does not parse, or
      no header row two rows below the blank one). */
  function Layout(table: Table, nums: Numbers): (l: Option<(nat, seq<Entry>)>)
    ensures l.Some? ==> l.value.0 + 2 < |table|
  {
    match NextBlank(table, 0)
    case None => None
    case Some(b) =>
      var block := ParamBlock(table, b + 3, nums);
      if block.0.None? || block.0.value + 2 >= |table| then None
      else Some((block.0.value, block.1))
  }

  /** Row `r` of the saved table, the parameter block ending at `end`,
      with `cc` original columns. */
  function SavedRow(table: Table, end: nat, sigs: seq<Entry>, cc: nat, r: nat,
                    results: map<string, FileResults>, nums: Numbers): (row: seq<string>)
    requires r < |table|
    ensures end < r ==> |row| == Width(cc, |sigs|)
  {
    var w := Width(cc, |sigs|);
    if r <= end then table[r]
    else if r == end + 1 then IndexRow(Resize(table[r], w), cc, |sigs|, nums)
    else if r == end + 2 then HeaderRow(Resize(table[r], w), cc, |sigs|)
    else ResultRow(Resize(table[r], w), cc, sigs, results, nums)
  }

  /** The table as the saver leaves it when the parameter block ends at
      row `end` with configurations `sigs`: the rows above the index row
      are kept, and the index row, the header row and every file row are
      widened to the result width and filled in. */
  function SavedAt(table: Table, end: nat, sigs: seq<Entry>, results: map<string, FileResults>, nums: Numbers): (t: Table)
    requires end + 2 < |table|
    ensures |t| == |table|
  {
    var cc := ColumnCount(table[end + 2]);
    seq(|table|, r requires 0 <= r < |table| => SavedRow(table, end, sigs, cc, r, results, nums))
  }

  /** `save_batch_file` on the table: unchanged where it throws before the
      first write, otherwise saved at its header block. */
  function Saved(table: Table, results: map<string, FileResults>, nums: Numbers): Table
  {
    match Layout(table, nums)
    case None => table
    case Some((end, sigs)) => SavedAt(table, end, sigs, results, nums)
  }

  method SaveBatch(table: Table, results: map<string, FileResults>, nums: Numbers) returns (table': Table)
    ensures table' == Saved(table, results, nums)
  {
    table' := table;
    var b := SkipToBlank(table, 0);
    if b.None? {
      return;
    }
    var sigs, end := ReadSignatures(table, b.value + 3, nums);
    if end.None? || end.value + 2 >= |table| {
      return;
    }
    assert Layout(table, nums) == Some((end.value, sigs));
    table' := WriteResults(table, results, nums, end.value, sigs);
  }

  /** The writing part of the saver, once the header block is found: the
      index row, the header row and the file rows. */
  method WriteResults(table: Table, results: map<string, FileResults>, nums: Numbers, e: nat, sigs: seq<Entry>)
    returns (table': Table)
    requires e + 2 < |table|
    ensures table' == SavedAt(table, e, sigs, results, nums)
  {
    table' := table;
    var cc := CountColumns(table[e + 2]);
    var w := Width(cc, |sigs|);
    var indexRow := WriteIndexRow(Resize(table[e + 1], w), cc, |sigs|, nums);
    table' := table'[e + 1 := indexRow];
    var header := WriteHeaderRow(Resize(table[e + 2], w), cc, |sigs|);
    table' := table'[e + 2 := header];
    ghost var headed := table';
    table' := WriteFileRows(table, e, sigs, cc, results, nums, table');
    forall r | 0 <= r < |table| ensures table'[r] == SavedRow(table, e, sigs, cc, r, results, nums) {
      if r <= e {
        assert table'[r] == headed[r] == table[r];
      } else if r == e + 1 {
        assert table'[r] == headed[r] == indexRow;
      } else if r == e + 2 {
        assert table'[r] == headed[r] == header;
      }
    }
    SavedRows(table, results, nums, e, sigs, cc, table');
  }

  /** The file-row loop of the saver: every row below the header row is
      widened and filled from the results of its file. */
  method WriteFileRows(table: Table, e: nat, sigs: seq<Entry>, cc: nat, results: map<string, FileResults>, nums: Numbers,
                       t: Table) returns (t': Table)
    requires |t| == |table|
    ensures |t'| == |table|
    ensures forall r | 0 <= r < |table| ::
              t'[r] == if e + 3 <= r then ResultRow(Resize(table[r], Width(cc, |sigs|)), cc, sigs, results, nums) else t[r]
  {
    t' := t;
    var w := Width(cc, |sigs|);
    var row := e + 3;
    while row < |table|
      invariant |t'| == |table|
      invariant forall r | 0 <= r < |table| ::
                  t'[r] == if e + 3 <= r < row then ResultRow(Resize(table[r], w), cc, sigs, results, nums) else t[r]
      decreases |table| - row
    {
      var filled := WriteResultRow(Resize(table[row], w), cc, sigs, results, nums);
      t' := t'[row := filled];
      row := row + 1;
    }
  }

  /** A table whose every row is the saved row is the saved table. */
  lemma SavedRows(table: Table, results: map<string, FileResults>, nums: Numbers, end: nat, sigs: seq<Entry>, cc: nat, t: Table)
    requires end + 2 < |table| && cc == ColumnCount(table[end + 2])
    requires |t| == |table| && forall r | 0 <= r < |table| :: t[r] == SavedRow(table, end, sigs, cc, r, results, nums)
    ensures t == SavedAt(table, end, sigs, results, nums)
  {
  }

  /** Where the saver throws before its first write the table is written
      back unchanged. */
  lemma SavedUnchanged(table: Table, results: map<string, FileResults>, nums: Numbers)
    requires Layout(table, nums).None?
    ensures Saved(table, results, nums) == table
  {
  }

  /** Otherwise the table keeps its rows, the rows down to the blank one
      after the parameter block are kept, and every row from the index row
      on is exactly as wide as the result columns need. */
  lemma SavedShape(table: Table, end: nat, sigs: seq<Entry>, results: map<string, FileResults>, nums: Numbers)
    requires end + 2 < |table|
    ensures var saved := SavedAt(table, end, sigs, results, nums);
            && saved[..end + 1] == table[..end + 1]
            && forall r | end < r < |table| :: |saved[r]| == Width(ColumnCount(table[end + 2]), |sigs|)
  {
  }

  /** Each row below the header row is a file row filled from the results
      of the file named in its cell 1. */
  lemma SavedFileRow(table: Table, end: nat, sigs: seq<Entry>, results: map<string, FileResults>, nums: Numbers, r: nat)
    requires end + 2 < r < |table|
    ensures var cc := ColumnCount(table[end + 2]);
            SavedAt(table, end, sigs, results, nums)[r] == ResultRow(Resize(table[r], Width(cc, |sigs|)), cc, sigs, results, nums)
  {
  }

  lemma IndexCell(row: seq<string>, cc: nat, n: nat, nums: Numbers, i: nat)
    requires i < n && |row| == Width(cc, n)
    ensures IndexRow(row, cc, n, nums)[cc + 12 + 5 * i] == nums.showIndex(i)
  {
    BlockOf(cc + 12 + 5 * i, cc, i);
  }

  lemma HeaderCells(row: seq<string>, cc: nat, n: nat, i: nat, k: nat)
    requires i < n && k < 4 && |row| == Width(cc, n)
    ensures HeaderRow(row, cc, n)[cc + 12 + 5 * i + k] == ResultLabels[k]
    ensures forall m | 0 <= m < 11 :: HeaderRow(row, cc, n)[cc + 1 + m] == MeshLabels[m]
  {
    BlockOf(cc + 12 + 5 * i + k, cc, i);
  }

  /** A file row whose file has no results gets "error" after the original
      columns; one whose file has results gets its mesh properties and,
      for each parameter row, its four results or "error" in its S column
      when that configuration has none. */
  lemma ResultCells(row: seq<string>, cc: nat, sigs: seq<Entry>, results: map<string, FileResults>, nums: Numbers, i: nat, k: nat)
    requires i < |sigs| && k < 4 && |row| == Width(cc, |sigs|)
    ensures var saved := ResultRow(row, cc, sigs, results, nums);
            if row[1] !in results then saved[cc + 1] == "error"
            else
              var d := results[row[1]];
              && (forall m | 0 <= m < 7 :: saved[cc + 1 + m] == nums.showReal(MeshCells(d)[m]))
              && (sigs[i] in d.surm ==> saved[cc + 12 + 5 * i + k] == SurmCells(d.surm[sigs[i]], nums)[k])
              && (sigs[i] !in d.surm ==> saved[cc + 12 + 5 * i] == "error")
  {
    BlockOf(cc + 12 + 5 * i + k, cc, i);
    BlockOf(cc + 12 + 5 * i, cc, i);
  }

  /** The index row holds each parameter row's index above its S column. */
  lemma SavedIndexRow(table: Table, end: nat, sigs: seq<Entry>, results: map<string, FileResults>, nums: Numbers, i: nat)
    requires end + 2 < |table| && i < |sigs|
    ensures var cc := ColumnCount(table[end + 2]);
            SavedAt(table, end, sigs, results, nums)[end + 1][cc + 12 + 5 * i] == nums.showIndex(i)
  {
    var cc := ColumnCount(table[end + 2]);
    var row := Resize(table[end + 1], Width(cc, |sigs|));
    assert SavedAt(table, end, sigs, results, nums)[end + 1] == IndexRow(row, cc, |sigs|, nums);
    IndexCell(row, cc, |sigs|, nums, i);
  }

  /** The header row holds the mesh labels after the original columns and
      S, U, Reeb, Morse in each parameter row's block. */
  lemma SavedHeaderRow(table: Table, end: nat, sigs: seq<Entry>, results: map<string, FileResults>, nums: Numbers, i: nat, k: nat)
    requires end + 2 < |table| && i < |sigs| && k < 4
    ensures var cc := ColumnCount(table[end + 2]);
            var header := SavedAt(table, end, sigs, results, nums)[end + 2];
            && header[cc + 12 + 5 * i + k] == ResultLabels[k]
            && forall m | 0 <= m < 11 :: header[cc + 1 + m] == MeshLabels[m]
  {
    var cc := ColumnCount(table[end + 2]);
    var row := Resize(table[end + 2], Width(cc, |sigs|));
    assert SavedAt(table, end, sigs, results, nums)[end + 2] == HeaderRow(row, cc, |sigs|);
    HeaderCells(row, cc, |sigs|, i, k);
  }
}
