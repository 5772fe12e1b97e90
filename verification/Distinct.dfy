/**
 Removing duplicate rows from input in which equal rows are adjacent: in place for each block of a
 lazy input, and out of place in chunks.
 */
module Distinct {
  import opened Tables

  // ---- Specification --------------------------------------------------------------------------------

  /** All rows have the columns that count. */
  ghost predicate Wide(keep: seq<nat>, rows: seq<Row>) {
    forall r, c | r in rows && c in keep :: c < |r|
  }

  ghost predicate Differs(keep: seq<nat>, a: Row, b: Row) {
    exists c :: c in keep && c < |a| && c < |b| && a[c] != b[c]
  }

  /** The row before the one at position `n`, where `previous` comes before all rows. */
  ghost function RowBefore(previous: Option<Row>, rows: seq<Row>, n: nat): Option<Row>
    requires n <= |rows|
  {
    if n == 0 then previous else Some(rows[n - 1])
  }

  /** A row is kept if it is the first one, or differs from the row before it in some column that counts. */
  ghost function Kept(keep: seq<nat>, previous: Option<Row>, rows: seq<Row>): seq<Row> {
    if rows == [] then [] else
      var n := |rows| - 1;
      var before := RowBefore(previous, rows, n);
      Kept(keep, previous, rows[..n])
      + if before.None? || Differs(keep, before.value, rows[n]) then [rows[n]] else []
  }

  // ---- Comparing rows -------------------------------------------------------------------------------

  /** The rows agree on the columns that count. */
  predicate MatchesRow(keep: seq<nat>, a: Row, b: Row) {
    Key(keep, a) == Key(keep, b)
  }

  /** The values of the columns that count. */
  function Key(keep: seq<nat>, row: Row): seq<Id> {
    seq(|keep|, i requires 0 <= i < |keep| => Cell(row, keep[i]))
  }

  function Cell(row: Row, column: nat): Id {
    if column < |row| then row[column] else UNDEF
  }

  predicate Continues(keep: seq<nat>, row: Row, previous: Option<Row>) {
    previous.Some? && MatchesRow(keep, row, previous.value)
  }

  /** The first row of each maximal run of matching rows, where `previous` comes before all rows. */
  function Firsts(keep: seq<nat>, previous: Option<Row>, rows: seq<Row>): seq<Row>
    decreases rows
  {
    if rows == [] then []
    else (if Continues(keep, rows[0], previous) then [] else [rows[0]]) + Firsts(keep, Some(rows[0]), rows[1..])
  }

  function LastOf(rows: seq<Row>, previous: Option<Row>): Option<Row> {
    if rows == [] then previous else Some(rows[|rows| - 1])
  }

  /** What is compared are the columns of `keep`, and nothing else. */
  lemma MatchesRowIff(keep: seq<nat>, a: Row, b: Row)
    requires Wide(keep, [a, b])
    ensures MatchesRow(keep, a, b) <==> forall c | c in keep :: a[c] == b[c]
    ensures MatchesRow(keep, a, b) <==> !Differs(keep, a, b)
  {
    assert a in [a, b] && b in [a, b];
    if MatchesRow(keep, a, b) {
      forall c | c in keep
        ensures a[c] == b[c]
      {
        var i :| 0 <= i < |keep| && keep[i] == c;
        assert Key(keep, a)[i] == Key(keep, b)[i];
      }
    }
    if !Differs(keep, a, b) {
      forall i | 0 <= i < |keep|
        ensures Key(keep, a)[i] == Key(keep, b)[i]
      {
        assert keep[i] in keep;
      }
      assert Key(keep, a) == Key(keep, b);
    }
  }

  ghost predicate WideWith(keep: seq<nat>, previous: Option<Row>, rows: seq<Row>) {
    Wide(keep, rows) && (previous.Some? ==> Wide(keep, [previous.value]))
  }

  /** The first rows of runs are the rows that are kept. */
  lemma {:induction false} FirstsAreKept(keep: seq<nat>, previous: Option<Row>, rows: seq<Row>)
    requires WideWith(keep, previous, rows)
    ensures Firsts(keep, previous, rows) == Kept(keep, previous, rows)
  {
    if rows != [] {
      var n := |rows| - 1;
      assert rows == rows[..n] + [rows[n]];
      FirstsAreKept(keep, previous, rows[..n]);
      FirstsSnoc(keep, previous, rows[..n], rows[n]);
      var before := RowBefore(previous, rows, n);
      if before.Some? {
        assert rows[n] in rows && before.value in if n == 0 then [before.value] else rows;
        MatchesRowIff(keep, rows[n], before.value);
      }
    }
  }

  // ---- Properties of runs ---------------------------------------------------------------------------

  lemma {:induction false} FirstsAppend(keep: seq<nat>, previous: Option<Row>, a: seq<Row>, b: seq<Row>)
    ensures Firsts(keep, previous, a + b) == Firsts(keep, previous, a) + Firsts(keep, LastOf(a, previous), b)
    decreases a
  {
    hide Continues;
    if a == [] {
      assert a + b == b;
    } else {
      assert (a + b)[1..] == a[1..] + b;
      FirstsAppend(keep, Some(a[0]), a[1..], b);
    }
  }

  lemma FirstsSnoc(keep: seq<nat>, previous: Option<Row>, rows: seq<Row>, x: Row)
    ensures Firsts(keep, previous, rows + [x])
         == Firsts(keep, previous, rows) + if Continues(keep, x, LastOf(rows, previous)) then [] else [x]
  {
    FirstsAppend(keep, previous, rows, [x]);
    assert [x][1..] == [];
  }

  /** Only the columns that count of the previous row matter. */
  lemma FirstsSamePrevious(keep: seq<nat>, p: Row, q: Row, rows: seq<Row>)
    requires MatchesRow(keep, p, q)
    ensures Firsts(keep, Some(p), rows) == Firsts(keep, Some(q), rows)
  {
    if rows != [] {
      assert Continues(keep, rows[0], Some(p)) == Continues(keep, rows[0], Some(q));
    }
  }

  lemma FirstsNewRun(keep: seq<nat>, previous: Option<Row>, rows: seq<Row>)
    requires rows != [] ==> !Continues(keep, rows[0], previous)
    ensures Firsts(keep, previous, rows) == Firsts(keep, None, rows)
  {}

  /** The last row kept matches the last row seen; if nothing is kept, everything matches `previous`. */
  lemma {:induction false} LastKept(keep: seq<nat>, previous: Option<Row>, rows: seq<Row>)
    ensures var kept, last := LastOf(Firsts(keep, previous, rows), previous), LastOf(rows, previous);
            && (kept.Some? <==> last.Some?)
            && (kept.Some? ==> MatchesRow(keep, kept.value, last.value))
    ensures |Firsts(keep, previous, rows)| <= |rows|
    ensures previous.None? && rows != [] ==> Firsts(keep, previous, rows) != []
  {
    if rows != [] {
      var n := |rows| - 1;
      assert rows == rows[..n] + [rows[n]];
      LastKept(keep, previous, rows[..n]);
      FirstsSnoc(keep, previous, rows[..n], rows[n]);
    }
  }

  /** Rows that all match the row before them add nothing. */
  lemma {:induction false} FirstsOfRun(keep: seq<nat>, p: Row, rows: seq<Row>)
    requires forall i | 0 <= i < |rows| :: MatchesRow(keep, rows[i], p)
    ensures Firsts(keep, Some(p), rows) == []
    decreases rows
  {
    if rows != [] {
      assert MatchesRow(keep, rows[0], p);
      FirstsOfRun(keep, rows[0], rows[1..]);
    }
  }

  // ---- Duplicates ---------------------------------------------------------------------------------------

  /** Matching rows are adjacent, as in sorted input. */
  ghost predicate Grouped(keep: seq<nat>, rows: seq<Row>) {
    forall i, j, k | 0 <= i < j < k < |rows| && MatchesRow(keep, rows[i], rows[k]) :: MatchesRow(keep, rows[i], rows[j])
  }

  ghost predicate NoDuplicates(keep: seq<nat>, rows: seq<Row>) {
    forall i, j | 0 <= i < j < |rows| :: !MatchesRow(keep, rows[i], rows[j])
  }

  ghost predicate HasKey(keep: seq<nat>, rows: seq<Row>, row: Row) {
    exists r :: r in rows && MatchesRow(keep, row, r)
  }

  /** The result consists of input rows, and every input row has a match in the result. */
  lemma {:induction false} KeepsKeys(keep: seq<nat>, rows: seq<Row>)
    ensures forall r | r in Firsts(keep, None, rows) :: r in rows
    ensures forall r | r in rows :: HasKey(keep, Firsts(keep, None, rows), r)
  {
    if rows != [] {
      var n := |rows| - 1;
      var before, x := rows[..n], rows[n];
      var kept := Firsts(keep, None, before);
      assert rows == before + [x];
      KeepsKeys(keep, before);
      FirstsSnoc(keep, None, before, x);
      LastKept(keep, None, before);
      var result := Firsts(keep, None, rows);
      if Continues(keep, x, LastOf(before, None)) {
        assert kept[|kept| - 1] in result && MatchesRow(keep, x, kept[|kept| - 1]);
      } else {
        assert x in result && MatchesRow(keep, x, x);
      }
      forall r | r in before
        ensures HasKey(keep, result, r)
      {
        var w :| w in kept && MatchesRow(keep, r, w);
        assert w in result;
      }
    }
  }

  /** In grouped input, a row that matches any earlier row matches the one before it. */
  lemma OldKey(keep: seq<nat>, rows: seq<Row>, i: nat, n: nat)
    requires Grouped(keep, rows) && i < n < |rows| && MatchesRow(keep, rows[i], rows[n])
    ensures MatchesRow(keep, rows[n], rows[n - 1])
  {
    if i < n - 1 {
      assert MatchesRow(keep, rows[i], rows[n - 1]);
    }
  }

  lemma NoDuplicatesSnoc(keep: seq<nat>, rows: seq<Row>, x: Row)
    requires NoDuplicates(keep, rows) && forall r | r in rows :: !MatchesRow(keep, r, x)
    ensures NoDuplicates(keep, rows + [x])
  {
    hide MatchesRow;
  }

  /** On grouped input, no two rows of the result match. */
  lemma {:induction false} KeepsKeysOnce(keep: seq<nat>, rows: seq<Row>)
    requires Grouped(keep, rows)
    ensures NoDuplicates(keep, Firsts(keep, None, rows))
  {
    hide MatchesRow;
    if rows != [] {
      var n := |rows| - 1;
      var before, x := rows[..n], rows[n];
      KeepsKeysOnce(keep, before);
      assert rows == before + [x];
      FirstsSnoc(keep, None, before, x);
      if !Continues(keep, x, LastOf(before, None)) {
        NewRowMatchesNone(keep, rows, n);
        KeepsKeys(keep, before);
        NoDuplicatesSnoc(keep, Firsts(keep, None, before), x);
      }
    }
  }

  lemma NewRowMatchesNone(keep: seq<nat>, rows: seq<Row>, n: nat)
    requires Grouped(keep, rows) && n < |rows| && !Continues(keep, rows[n], LastOf(rows[..n], None))
    ensures forall r | r in rows[..n] :: !MatchesRow(keep, r, rows[n])
  {
    forall i | 0 <= i < n
      ensures !MatchesRow(keep, rows[..n][i], rows[n])
    {
      if MatchesRow(keep, rows[i], rows[n]) {
        OldKey(keep, rows, i, n);
      }
    }
  }

  /** In terms of columns: equal rows are adjacent. */
  ghost predicate EqualAdjacent(keep: seq<nat>, rows: seq<Row>) {
    forall i, j, k | 0 <= i < j < k < |rows| && !Differs(keep, rows[i], rows[k]) :: !Differs(keep, rows[i], rows[j])
  }

  ghost predicate AllDiffer(keep: seq<nat>, rows: seq<Row>) {
    forall i, j | 0 <= i < j < |rows| :: Differs(keep, rows[i], rows[j])
  }

  ghost predicate HasEqual(keep: seq<nat>, rows: seq<Row>, row: Row) {
    exists r :: r in rows && !Differs(keep, row, r)
  }

  lemma ComparesColumns(keep: seq<nat>, rows: seq<Row>)
    requires Wide(keep, rows)
    ensures forall a, b | a in rows && b in rows :: MatchesRow(keep, a, b) <==> !Differs(keep, a, b)
  {
    forall a, b | a in rows && b in rows
      ensures MatchesRow(keep, a, b) <==> !Differs(keep, a, b)
    {
      MatchesRowIff(keep, a, b);
    }
  }

  /** Every row kept is one of the input, and every row of the input equals one that is kept, in the columns that
      count. */
  lemma KeepsColumns(keep: seq<nat>, rows: seq<Row>)
    requires Wide(keep, rows)
    ensures forall r | r in Kept(keep, None, rows) :: r in rows
    ensures forall r | r in rows :: HasEqual(keep, Kept(keep, None, rows), r)
  {
    FirstsAreKept(keep, None, rows);
    KeepsKeys(keep, rows);
    ComparesColumns(keep, rows);
    var kept := Kept(keep, None, rows);
    hide MatchesRow, Differs, Firsts, Kept;
    forall r | r in rows
      ensures HasEqual(keep, kept, r)
    {
      assert HasKey(keep, kept, r);
      var k :| k in kept && MatchesRow(keep, r, k);
    }
  }

  /** If equal rows are adjacent, the rows kept differ from each other. */
  lemma KeepsColumnsOnce(keep: seq<nat>, rows: seq<Row>)
    requires Wide(keep, rows) && EqualAdjacent(keep, rows)
    ensures AllDiffer(keep, Kept(keep, None, rows))
  {
    FirstsAreKept(keep, None, rows);
    KeepsColumns(keep, rows);
    ComparesColumns(keep, rows);
    hide MatchesRow, Differs, Firsts, Kept, HasEqual;
    assert Grouped(keep, rows);
    KeepsKeysOnce(keep, rows);
  }

  lemma KeptIfWide(keep: seq<nat>, previous: Option<Row>, rows: seq<Row>)
    ensures WideWith(keep, previous, rows) ==> Firsts(keep, previous, rows) == Kept(keep, previous, rows)
  {
    if WideWith(keep, previous, rows) {
      FirstsAreKept(keep, previous, rows);
    }
  }

  // ---- In place -----------------------------------------------------------------------------------------

  method FindFirstNotMatching(keep: seq<nat>, rows: seq<Row>, from: nat, to: nat, row: Option<Row>) returns (i: nat)
    requires from <= to <= |rows|
    ensures from <= i <= to
    ensures forall j | from <= j < i :: Continues(keep, rows[j], row)
    ensures i < to ==> !Continues(keep, rows[i], row)
  {
    i := from;
    while i < to && Continues(keep, rows[i], row)
      invariant from <= i <= to
      invariant forall j | from <= j < i :: Continues(keep, rows[j], row)
    {
      i := i + 1;
    }
  }

  /** The first position whose row matches the next one, or the end. */
  method AdjacentFind(keep: seq<nat>, rows: seq<Row>) returns (i: nat)
    ensures i <= |rows|
    ensures forall j | 0 <= j < i && j + 1 < |rows| :: !MatchesRow(keep, rows[j], rows[j + 1])
    ensures i < |rows| ==> i + 1 < |rows| && MatchesRow(keep, rows[i], rows[i + 1])
  {
    i := 0;
    while i + 1 < |rows| && !MatchesRow(keep, rows[i], rows[i + 1])
      invariant i <= |rows|
      invariant forall j | 0 <= j < i && j + 1 < |rows| :: !MatchesRow(keep, rows[j], rows[j + 1])
    {
      i := i + 1;
    }
    if i + 1 >= |rows| {
      i := |rows|;
    }
  }

  /** Without adjacent matches, every row is kept. */
  lemma {:induction false} FirstsOfDistinct(keep: seq<nat>, previous: Option<Row>, rows: seq<Row>)
    requires forall j | 0 <= j && j + 1 < |rows| :: !MatchesRow(keep, rows[j], rows[j + 1])
    requires rows != [] ==> !Continues(keep, rows[0], previous)
    ensures Firsts(keep, previous, rows) == rows
    decreases rows
  {
    if rows != [] {
      if |rows| > 1 {
        assert !MatchesRow(keep, rows[0], rows[0 + 1]);
      }
      forall j | 0 <= j && j + 1 < |rows[1..]|
        ensures !MatchesRow(keep, rows[1..][j], rows[1..][j + 1])
      {
        assert rows[1..][j] == rows[j + 1] && rows[1..][j + 1] == rows[(j + 1) + 1];
      }
      FirstsOfDistinct(keep, Some(rows[0]), rows[1..]);
    }
  }

  /** Compacts the rows in place, so that the first `size` of them are the ones kept. */
  method DistinctInPlace(keep: seq<nat>, table: array<Row>, previousRow: Option<Row>) returns (size: nat)
    modifies table
    ensures size <= table.Length
    ensures table[..size] == Firsts(keep, previousRow, old(table[..]))
    ensures WideWith(keep, previousRow, old(table[..])) ==> table[..size] == Kept(keep, previousRow, old(table[..]))
  {
    ghost var rows := table[..];
    KeptIfWide(keep, previousRow, rows);
    hide Kept, WideWith, Key;
    var end := table.Length;
    var begin: nat := FindFirstNotMatching(keep, table[..], 0, end, previousRow);
    var dest: nat := 0;
    if begin == 0 {
      begin := AdjacentFind(keep, table[..]);
      dest := begin;
      FirstsOfDistinct(keep, previousRow, rows[..begin]);
      if begin == end {
        assert rows[..end] == rows;
        return dest;
      }
      StartsRun(keep, previousRow, rows, begin);
      begin := begin + 1;
    } else {
      assert Continues(keep, rows[0], previousRow);
      FirstsOfRun(keep, previousRow.value, rows[..begin]);
      FirstsOfRunAnyPrevious(keep, previousRow.value, rows[..begin]);
      if begin == end {
        assert rows[..end] == rows;
        return dest;
      }
      FirstsSnoc(keep, previousRow, rows[..begin], rows[begin]);
      assert rows[..begin + 1] == rows[..begin] + [rows[begin]];
      table[0] := table[begin];
    }
    size := Compact(keep, table, previousRow, begin, dest, rows);
  }

  lemma FirstsOfRunAnyPrevious(keep: seq<nat>, p: Row, rows: seq<Row>)
    requires rows != [] && forall i | 0 <= i < |rows| :: MatchesRow(keep, rows[i], p)
    ensures forall x: Row :: Continues(keep, x, LastOf(rows, Some(p))) <==> Continues(keep, x, Some(p))
  {
    var last := rows[|rows| - 1];
    assert MatchesRow(keep, last, p);
  }

  /** Row `begin` is kept and its successor is not. */
  lemma StartsRun(keep: seq<nat>, previous: Option<Row>, rows: seq<Row>, begin: nat)
    requires begin + 1 < |rows| && MatchesRow(keep, rows[begin], rows[begin + 1])
    requires forall j | 0 <= j < begin && j + 1 < |rows| :: !MatchesRow(keep, rows[j], rows[j + 1])
    requires !Continues(keep, rows[0], previous)
    ensures Firsts(keep, previous, rows[..begin + 2]) == rows[..begin + 1]
  {
    FirstsOfDistinct(keep, previous, rows[..begin + 1]);
    assert rows[..begin + 2] == rows[..begin + 1] + [rows[begin + 1]];
    FirstsSnoc(keep, previous, rows[..begin + 1], rows[begin + 1]);
  }

  /** Comparing with the last row kept is as good as comparing with the row before. */
  lemma CompactStep(keep: seq<nat>, previous: Option<Row>, rows: seq<Row>, n: nat, kept: seq<Row>)
    requires n < |rows| && kept == Firsts(keep, previous, rows[..n]) && n > 0 && kept != []
    ensures Firsts(keep, previous, rows[..n + 1])
         == kept + if MatchesRow(keep, kept[|kept| - 1], rows[n]) then [] else [rows[n]]
  {
    LastKept(keep, previous, rows[..n]);
    FirstsSnoc(keep, previous, rows[..n], rows[n]);
    assert rows[..n + 1] == rows[..n] + [rows[n]];
  }

  /** The loop that moves each row starting a new run behind the rows kept so far. */
  method Compact(keep: seq<nat>, table: array<Row>, ghost previousRow: Option<Row>, start: nat, start': nat, ghost rows: seq<Row>)
    returns (size: nat)
    requires start' <= start < table.Length == |rows|
    requires table[..start' + 1] == Firsts(keep, previousRow, rows[..start + 1])
    requires forall i | start < i < table.Length :: table[i] == rows[i]
    modifies table
    ensures size <= table.Length && table[..size] == Firsts(keep, previousRow, rows)
  {
    hide Firsts, MatchesRow;
    var begin, dest := start, start';
    while begin + 1 != table.Length
      invariant 0 <= dest <= begin < table.Length
      invariant table[..dest + 1] == Firsts(keep, previousRow, rows[..begin + 1])
      invariant forall i | begin < i < table.Length :: table[i] == rows[i]
      decreases table.Length - begin
    {
      begin := begin + 1;
      CompactStep(keep, previousRow, rows, begin, table[..dest + 1]);
      if !MatchesRow(keep, table[dest], table[begin]) {
        dest := dest + 1;
        table[dest] := table[begin];
      }
    }
    assert rows[..table.Length] == rows;
    size := dest + 1;
  }

  // ---- Block by block ---------------------------------------------------------------------------------

  /** Whichever kept row is remembered, the next block continues the same run. */
  lemma NextBlock(keep: seq<nat>, seen: seq<Row>, block: seq<Row>, previous: Option<Row>)
    requires previous == LastOf(Firsts(keep, None, seen), None)
    ensures Firsts(keep, None, seen + block) == Firsts(keep, None, seen) + Firsts(keep, previous, block)
    ensures LastOf(Firsts(keep, previous, block), previous) == LastOf(Firsts(keep, None, seen + block), None)
  {
    FirstsAppend(keep, None, seen, block);
    LastKept(keep, None, seen);
    if previous.Some? {
      FirstsSamePrevious(keep, previous.value, LastOf(seen, None).value, block);
    }
  }

  lemma NothingKept(keep: seq<nat>)
    ensures Firsts(keep, None, []) == []
  {}

  /** What is left of one block, and the last row kept so far. */
  method GetDistinctResult(keep: seq<nat>, block: seq<Row>, previousRow: Option<Row>)
    returns (result: seq<Row>, previousRow': Option<Row>)
    ensures result == Firsts(keep, previousRow, block) && previousRow' == LastOf(result, previousRow)
  {
    hide Firsts;
    var table := new Row[|block|](i => if 0 <= i < |block| then block[i] else []);
    assert table[..] == block;
    var size := DistinctInPlace(keep, table, previousRow);
    result := table[..size];
    previousRow' := if size != 0 then Some(table[size - 1]) else previousRow;
  }

  /** The blocks yielded for a lazy input are the rows kept, cut where the input is cut. Blocks of
      which nothing is left are not yielded. */
  method LazyDistinct(keep: seq<nat>, blocks: seq<seq<Row>>) returns (yielded: seq<seq<Row>>)
    ensures Concat(yielded) == Firsts(keep, None, Concat(blocks))
    ensures Wide(keep, Concat(blocks)) ==> Concat(yielded) == Kept(keep, None, Concat(blocks))
    ensures forall b | 0 <= b < |yielded| :: yielded[b] != []
  {
    KeptIfWide(keep, None, Concat(blocks));
    var previousRow: Option<Row> := None;
    yielded := [];
    NothingKept(keep);
    assert Concat(yielded) == Concat(blocks[..0]) == [];
    hide Firsts, Concat, Kept, Wide;
    for b := 0 to |blocks|
      invariant Concat(yielded) == Firsts(keep, None, Concat(blocks[..b]))
      invariant previousRow == LastOf(Concat(yielded), None)
      invariant forall b | 0 <= b < |yielded| :: yielded[b] != []
    {
      assert blocks[..b + 1] == blocks[..b] + [blocks[b]];
      ConcatSnoc(blocks[..b], blocks[b]);
      NextBlock(keep, Concat(blocks[..b]), blocks[b], previousRow);
      var result: seq<Row>;
      result, previousRow := GetDistinctResult(keep, blocks[b], previousRow);
      ConcatSnoc(yielded, result);
      if result != [] {
        yielded := yielded + [result];
      }
    }
    assert blocks[..|blocks|] == blocks;
  }

  /** When a single table is asked for, the blocks kept are collected. */
  method LazyDistinctOnce(keep: seq<nat>, blocks: seq<seq<Row>>) returns (aggregateTable: seq<Row>)
    ensures aggregateTable == Firsts(keep, None, Concat(blocks))
    ensures Wide(keep, Concat(blocks)) ==> aggregateTable == Kept(keep, None, Concat(blocks))
  {
    var yielded := LazyDistinct(keep, blocks);
    aggregateTable := [];
    for b := 0 to |yielded|
      invariant aggregateTable == Concat(yielded[..b])
    {
      assert yielded[..b + 1] == yielded[..b] + [yielded[b]];
      ConcatSnoc(yielded[..b], yielded[b]);
      aggregateTable := aggregateTable + yielded[b];
    }
    assert yielded[..|yielded|] == yielded;
  }

  // ---- Out of place -----------------------------------------------------------------------------------

  /** A run does not end at `begin`, or nothing follows. */
  predicate AtRunStart(keep: seq<nat>, rows: seq<Row>, begin: nat)
    requires begin <= |rows|
  {
    begin == 0 || begin == |rows| || !MatchesRow(keep, rows[begin], rows[begin - 1])
  }

  lemma ChunkFromRunStart(keep: seq<nat>, rows: seq<Row>, begin: nat, end: nat)
    requires begin <= end <= |rows| && AtRunStart(keep, rows, begin)
    ensures Firsts(keep, None, rows[..end]) == Firsts(keep, None, rows[..begin]) + Firsts(keep, None, rows[begin..end])
  {
    assert rows[..end] == rows[..begin] + rows[begin..end];
    FirstsAppend(keep, None, rows[..begin], rows[begin..end]);
    FirstsNewRun(keep, LastOf(rows[..begin], None), rows[begin..end]);
  }

  lemma SkippedRun(keep: seq<nat>, rows: seq<Row>, begin: nat, end: nat)
    requires 0 < begin <= end <= |rows|
    requires forall j | begin <= j < end :: MatchesRow(keep, rows[j], rows[begin - 1])
    ensures Firsts(keep, None, rows[..end]) == Firsts(keep, None, rows[..begin])
    ensures MatchesRow(keep, rows[end - 1], rows[begin - 1])
  {
    assert rows[..end] == rows[..begin] + rows[begin..end];
    FirstsAppend(keep, None, rows[..begin], rows[begin..end]);
    FirstsOfRun(keep, rows[begin - 1], rows[begin..end]);
  }

  /** The row kept last matches the row before, so that comparing with either is the same. */
  lemma SameMatches(keep: seq<nat>, kept: Row, before: Row, x: Row)
    requires MatchesRow(keep, kept, before)
    ensures MatchesRow(keep, kept, x) <==> MatchesRow(keep, x, before)
  {}

  /** Copies the rows from `from` to `to`, except for those that match the row copied last. */
  method UniqueCopy(keep: seq<nat>, rows: seq<Row>, from: nat, to: nat, output: seq<Row>) returns (output': seq<Row>, next: nat)
    requires from < to <= |rows|
    ensures next == to && output' == output + Firsts(keep, None, rows[from..to])
  {
    var kept := from;
    next := from + 1;
    output' := output + [rows[from]];
    assert rows[from..next] == [rows[from]];
    while next < to
      invariant from <= kept < next <= to && MatchesRow(keep, rows[kept], rows[next - 1])
      invariant output' == output + Firsts(keep, None, rows[from..next])
    {
      assert rows[from..next + 1] == rows[from..next] + [rows[next]];
      FirstsSnoc(keep, None, rows[from..next], rows[next]);
      SameMatches(keep, rows[kept], rows[next - 1], rows[next]);
      if !MatchesRow(keep, rows[kept], rows[next]) {
        kept := next;
        output' := output' + [rows[kept]];
      }
      next := next + 1;
    }
  }

  /** Alternates between copying a chunk without its duplicates and skipping the rest of the run that
      the chunk ends in. */
  method OutOfPlaceDistinct(keep: seq<nat>, rows: seq<Row>, chunkSize: nat) returns (output: seq<Row>)
    requires chunkSize > 0
    ensures output == Firsts(keep, None, rows)
    ensures Wide(keep, rows) ==> output == Kept(keep, None, rows)
  {
    KeptIfWide(keep, None, rows);
    hide MatchesRow, Kept, Wide;
    var begin, end := 0, |rows|;
    output := [];
    while begin < end
      invariant begin <= end && AtRunStart(keep, rows, begin)
      invariant output == Firsts(keep, None, rows[..begin])
    {
      var allowedOffset := Min(end - begin, chunkSize);
      ChunkFromRunStart(keep, rows, begin, begin + allowedOffset);
      output, begin := UniqueCopy(keep, rows, begin, begin + allowedOffset, output);
      begin := SkipRun(keep, rows, begin, chunkSize);
    }
    assert rows[..end] == rows;
  }

  /** The next position that starts a run, found chunk by chunk. */
  method SkipRun(keep: seq<nat>, rows: seq<Row>, start: nat, chunkSize: nat) returns (begin: nat)
    requires 0 < start <= |rows| && chunkSize > 0
    ensures start <= begin <= |rows| && AtRunStart(keep, rows, begin)
    ensures Firsts(keep, None, rows[..begin]) == Firsts(keep, None, rows[..start])
  {
    begin := start;
    while true
      invariant start <= begin <= |rows|
      invariant Firsts(keep, None, rows[..begin]) == Firsts(keep, None, rows[..start])
      decreases |rows| - begin
    {
      var allowedOffset := Min(|rows| - begin, chunkSize);
      var next := FindFirstNotMatching(keep, rows, begin, begin + allowedOffset, Some(rows[begin - 1]));
      SkippedRun(keep, rows, begin, next);
      begin := next;
      if begin == |rows| || !MatchesRow(keep, rows[begin], rows[begin - 1]) {
        break;
      }
    }
  }
}
