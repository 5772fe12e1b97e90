/**
 The cartesian product operation: column-wise writing, lazy production in chunks, and a last
 input that itself arrives in blocks.
 */
module CartesianProductJoin {
  import opened Tables
  import opened CartesianArithmetic
  import opened CartesianProduct

  ghost predicate AllValid(tables: seq<Table>) {
    forall t | t in tables :: t.Valid()
  }

  ghost function RowLists(tables: seq<Table>): (ts: seq<seq<Row>>)
    requires AllValid(tables)
    ensures |ts| == |tables|
  {
    seq(|tables|, k requires 0 <= k < |tables| => tables[k].Rows())
  }

  // ---- Writing one column -----------------------------------------------------------------------

  /** The element that belongs into cell `p` of the unbounded column. */
  ghost function Cell(input: seq<Id>, groupSize: nat, p: nat): Id
    requires input != [] && groupSize > 0
  {
    input[p / groupSize % |input|]
  }

  /** Cell `p` is repetition `u` of element `i` in some round of the column. */
  ghost predicate At(p: nat, i: nat, u: nat, size: nat, groupSize: nat) {
    exists q: nat :: p == Place(q, i, u, size, groupSize)
  }

  ghost function Place(q: nat, i: nat, u: nat, size: nat, groupSize: nat): nat {
    (q * size + i) * groupSize + u
  }

  /** The element to start with when `offset` cells come before, and how often it has been
      repeated already. */
  method Start(offset: nat, size: nat, groupSize: nat) returns (element: nat, repetition: nat)
    requires size > 0 && groupSize > 0
    ensures element < size && repetition < groupSize
    ensures At(offset, element, repetition, size, groupSize)
  {
    ghost var q := StartPosition(offset, size, groupSize);
    element := offset % (size * groupSize) / groupSize;
    repetition := offset % groupSize;
    assert offset == Place(q, element, repetition, size, groupSize);
  }

  lemma AtCell(input: seq<Id>, groupSize: nat, p: nat, i: nat, u: nat)
    requires i < |input| && u < groupSize && At(p, i, u, |input|, groupSize)
    ensures Cell(input, groupSize, p) == input[i]
    ensures At(p + 1, i, u + 1, |input|, groupSize)
  {
    var q: nat :| p == Place(q, i, u, |input|, groupSize);
    GridPosition(q, i, u, |input|, groupSize, p);
    assert p + 1 == Place(q, i, u + 1, |input|, groupSize);
  }

  lemma AtNextGroup(p: nat, i: nat, size: nat, groupSize: nat)
    requires At(p, i, groupSize, size, groupSize)
    ensures At(p, i + 1, 0, size, groupSize)
  {
    var q: nat :| p == Place(q, i, groupSize, size, groupSize);
    NextGroup(q, i, size, groupSize);
    assert p == Place(q, i + 1, 0, size, groupSize);
  }

  lemma AtNextRound(p: nat, size: nat, groupSize: nat)
    requires At(p, size, 0, size, groupSize)
    ensures At(p, 0, 0, size, groupSize)
  {
    var q: nat :| p == Place(q, size, 0, size, groupSize);
    NextGroup(q, 0, size, groupSize);
    assert p == Place(q + 1, 0, 0, size, groupSize);
  }

  ghost predicate Written(cells: seq<Id>, input: seq<Id>, groupSize: nat, offset: nat)
    requires input != [] && groupSize > 0
  {
    forall n | 0 <= n < |cells| :: cells[n] == Cell(input, groupSize, offset + n)
  }

  /** Fills `target` with the elements of `input`, each repeated `groupSize` times, over and over,
      as if `offset` cells had been written before. */
  method WriteResultColumn(target: array<Id>, input: seq<Id>, groupSize: nat, offset: nat)
    requires input != [] && groupSize > 0
    modifies target
    ensures Written(target[..], input, groupSize, offset)
  {
    var numRowsWritten: nat := 0;
    var firstInputElementIdx: nat, groupStartIdx: nat := Start(offset, |input|, groupSize);
    while true
      invariant numRowsWritten <= target.Length
      invariant firstInputElementIdx < |input| && groupStartIdx < groupSize
      invariant At(offset + numRowsWritten, firstInputElementIdx, groupStartIdx, |input|, groupSize)
      invariant Written(target[..numRowsWritten], input, groupSize, offset)
      decreases target.Length - numRowsWritten
    {
      ghost var before := numRowsWritten;
      var i := firstInputElementIdx;
      while i < |input|
        invariant i <= |input| && groupStartIdx < groupSize
        invariant before <= numRowsWritten <= target.Length
        invariant i == firstInputElementIdx || before < numRowsWritten
        invariant i == |input| ==> groupStartIdx == 0
        invariant At(offset + numRowsWritten, i, groupStartIdx, |input|, groupSize)
        invariant Written(target[..numRowsWritten], input, groupSize, offset)
      {
        var u := groupStartIdx;
        while u < groupSize
          invariant groupStartIdx <= u <= groupSize
          invariant before + u - groupStartIdx <= numRowsWritten <= target.Length
          invariant At(offset + numRowsWritten, i, u, |input|, groupSize)
          invariant Written(target[..numRowsWritten], input, groupSize, offset)
        {
          if numRowsWritten == target.Length {
            assert target[..numRowsWritten] == target[..];
            return;
          }
          AtCell(input, groupSize, offset + numRowsWritten, i, u);
          target[numRowsWritten] := input[i];
          numRowsWritten := numRowsWritten + 1;
          u := u + 1;
        }
        if numRowsWritten == target.Length {
          assert target[..numRowsWritten] == target[..];
          return;
        }
        AtNextGroup(offset + numRowsWritten, i, |input|, groupSize);
        groupStartIdx := 0;
        i := i + 1;
      }
      AtNextRound(offset + numRowsWritten, |input|, groupSize);
      firstInputElementIdx := 0;
    }
  }

  // ---- Writing all columns ----------------------------------------------------------------------

  ghost predicate Columns(columns: seq<seq<Id>>, size: nat) {
    forall c | 0 <= c < |columns| :: |columns[c]| == size
  }

  ghost function RowOf(columns: seq<seq<Id>>, size: nat, n: nat): (r: Row)
    requires Columns(columns, size) && n < size
    ensures |r| == |columns|
  {
    seq(|columns|, c requires 0 <= c < |columns| => columns[c][n])
  }

  /** The row that the mixed-radix digits of `x` select. */
  ghost function Decode(tables: seq<Table>, x: nat): Row
    requires AllValid(tables) && forall t | t in tables :: t.numRows > 0
  {
    if tables == [] then [] else tables[0].RowAt(x % tables[0].numRows) + Decode(tables[1..], x / tables[0].numRows)
  }

  lemma {:induction false} ProductDecodes(tables: seq<Table>, x: nat)
    requires AllValid(tables) && forall t | t in tables :: t.numRows > 0
    requires x < |Product(RowLists(tables))|
    ensures Product(RowLists(tables))[x] == Decode(tables, x)
  {
    if tables != [] {
      var ts := RowLists(tables);
      SpreadAt(ts[0], Product(ts[1..]), x);
      assert RowLists(tables[1..]) == ts[1..];
      ProductDecodes(tables[1..], x / tables[0].numRows);
    }
  }

  /** The product of the sizes of the tables. */
  ghost function Sizes(tables: seq<Table>): nat {
    if tables == [] then 1 else tables[0].numRows * Sizes(tables[1..])
  }

  lemma {:induction false} SizesAppend(a: seq<Table>, b: seq<Table>)
    ensures Sizes(a + b) == Sizes(a) * Sizes(b)
  {
    if a == [] {
      assert a + b == b;
    } else {
      assert (a + b)[1..] == a[1..] + b;
      SizesAppend(a[1..], b);
      Associate(a[0].numRows, Sizes(a[1..]), Sizes(b));
    }
  }

  lemma SizesTake(tables: seq<Table>, k: nat)
    requires k < |tables|
    ensures Sizes(tables[..k + 1]) == Sizes(tables[..k]) * tables[k].numRows
  {
    assert tables[..k + 1] == tables[..k] + [tables[k]];
    SizesAppend(tables[..k], [tables[k]]);
    assert Sizes([tables[k]]) == tables[k].numRows * Sizes([tables[k]][1..]);
  }

  lemma {:induction false} SizesIsVolume(tables: seq<Table>)
    requires AllValid(tables)
    ensures Sizes(tables) == Volume(RowLists(tables)) == |Product(RowLists(tables))|
  {
    ProductSize(RowLists(tables));
    if tables != [] {
      assert RowLists(tables[1..]) == RowLists(tables)[1..];
      SizesIsVolume(tables[1..]);
    }
  }

  lemma {:induction false} SizesPositive(tables: seq<Table>)
    ensures Sizes(tables) > 0 <==> forall t | t in tables :: t.numRows > 0
  {
    if tables != [] {
      SizesPositive(tables[1..]);
      if tables[0].numRows > 0 && Sizes(tables[1..]) > 0 {
        Positive(tables[0].numRows, Sizes(tables[1..]));
      }
      assert forall t :: t in tables <==> t == tables[0] || t in tables[1..];
    }
  }

  /** Each row has been extended by the row of `input` that belongs there. */
  ghost predicate Appended(before: seq<seq<Id>>, columns: seq<seq<Id>>, size: nat, input: Table, groupSize: nat, offset: nat)
    requires Columns(before, size) && Columns(columns, size) && input.Valid() && input.numRows > 0 && groupSize > 0
  {
    forall n: nat | n < size ::
      RowOf(columns, size, n) == RowOf(before, size, n) + input.RowAt((offset + n) / groupSize % input.numRows)
  }

  /** Writes the columns of one input behind the columns already there. */
  method AppendColumns(columns: seq<seq<Id>>, size: nat, input: Table, groupSize: nat, offset: nat)
    returns (result: seq<seq<Id>>)
    requires Columns(columns, size) && input.Valid() && input.numRows > 0 && groupSize > 0
    ensures Columns(result, size) && |result| == |columns| + |input.columns|
    ensures Appended(columns, result, size, input, groupSize, offset)
  {
    result := columns;
    for c := 0 to |input.columns|
      invariant Columns(result, size) && |result| == |columns| + c
      invariant forall n: nat | n < size ::
        RowOf(result, size, n) == RowOf(columns, size, n) + input.RowAt((offset + n) / groupSize % input.numRows)[..c]
    {
      var target := new Id[size];
      WriteResultColumn(target, input.columns[c], groupSize, offset);
      ghost var before := result;
      result := result + [target[..]];
      forall n: nat | n < size
        ensures RowOf(result, size, n) == RowOf(columns, size, n) + input.RowAt((offset + n) / groupSize % input.numRows)[..c + 1]
      {
        assert Written(target[..], input.columns[c], groupSize, offset);
        var r := input.RowAt((offset + n) / groupSize % input.numRows);
        assert RowOf(result, size, n) == RowOf(before, size, n) + [target[..][n]];
        assert target[..][n] == r[c];
      }
    }
  }

  /** In front of the last table, `skipped` complete rounds more or less make no difference. */
  lemma SameDigit(x: nat, skipped: nat, g: nat, m: nat, rest: nat)
    requires g > 0 && m > 0 && skipped * ((g * m) * rest) <= x
    ensures x / g % m == (x - skipped * ((g * m) * rest)) / g % m
  {
    var k := skipped * (m * rest);
    Associate(skipped, m * rest, g);
    Associate(m, rest, g);
    Associate(g, m, rest);
    assert (m * rest) * g == (g * m) * rest;
    assert skipped * ((g * m) * rest) == k * g;
    SubtractMultiple(x, g, k);
    Associate(skipped, rest, m);
    assert k == (skipped * rest) * m;
    DivLower(x, g, k);
    SubtractMultiple(x / g, m, skipped * rest);
  }

  lemma DivLower(x: nat, g: nat, k: nat)
    requires g > 0 && k * g <= x
    ensures k <= x / g
  {
    DivModDef(x, g);
    Distribute(x / g, 1, g);
    LessFromProduct(k, x / g + 1, g);
  }

  /** The part of the product that lies before the last table's block. */
  ghost function Skipped(tables: seq<Table>, lastTableOffset: nat): nat {
    if tables == [] then 0 else lastTableOffset * Sizes(tables[..|tables| - 1])
  }

  lemma SkippedRest(tables: seq<Table>, lastTableOffset: nat, k: nat)
    requires k + 1 < |tables|
    ensures Skipped(tables, lastTableOffset)
         == lastTableOffset * ((Sizes(tables[..k]) * tables[k].numRows) * Sizes(tables[k + 1..|tables| - 1]))
  {
    SizesTake(tables, k);
    assert tables[..|tables| - 1] == tables[..k + 1] + tables[k + 1..|tables| - 1];
    SizesAppend(tables[..k + 1], tables[k + 1..|tables| - 1]);
  }

  /** What the tables from the `k`-th on contribute to row `y` of the product. */
  ghost function Rest(tables: seq<Table>, k: nat, y: nat): Row
    requires AllValid(tables) && k <= |tables| && forall t | t in tables :: t.numRows > 0
  {
    RestPositive(tables, k);
    Decode(tables[k..], y / Sizes(tables[..k]))
  }

  lemma RestPositive(tables: seq<Table>, k: nat)
    requires k <= |tables| && forall t | t in tables :: t.numRows > 0
    ensures Sizes(tables[..k]) > 0
  {
    assert forall t | t in tables[..k] :: t.numRows > 0;
    SizesPositive(tables[..k]);
  }

  lemma RestAll(tables: seq<Table>, y: nat)
    requires AllValid(tables) && forall t | t in tables :: t.numRows > 0
    ensures Rest(tables, 0, y) == Decode(tables, y)
    ensures Rest(tables, |tables|, y) == []
  {
    assert tables[0..] == tables;
    assert y / Sizes(tables[..0]) == y;
  }

  /** One more table: the digit the code computes is the digit of the position inside the block. */
  lemma NextDigit(tables: seq<Table>, k: nat, position: nat, lastTableOffset: nat, extraOffset: nat)
    requires AllValid(tables) && k < |tables| && forall t | t in tables :: t.numRows > 0
    requires Skipped(tables, lastTableOffset) <= position
    requires extraOffset == if k == |tables| - 1 then lastTableOffset * Sizes(tables[..k]) else 0
    ensures extraOffset <= position && Sizes(tables[..k]) > 0
    ensures Rest(tables, k, position - Skipped(tables, lastTableOffset))
         == tables[k].RowAt((position - extraOffset) / Sizes(tables[..k]) % tables[k].numRows)
            + Rest(tables, k + 1, position - Skipped(tables, lastTableOffset))
  {
    var g, m := Sizes(tables[..k]), tables[k].numRows;
    var y := position - Skipped(tables, lastTableOffset);
    RestPositive(tables, k);
    SizesTake(tables, k);
    DivDiv(y, g, m);
    assert tables[k..][0] == tables[k] && tables[k..][1..] == tables[k + 1..];
    if k < |tables| - 1 {
      SkippedRest(tables, lastTableOffset, k);
      SameDigit(position, lastTableOffset, g, m, Sizes(tables[k + 1..|tables| - 1]));
    }
  }

  lemma SizesOfNone(tables: seq<Table>)
    ensures Sizes(tables[..0]) == 1 && (forall lastTableOffset: nat :: tables == [] ==> Skipped(tables, lastTableOffset) == 0)
    ensures tables != [] && tables[|tables| - 1].numRows == 0 ==> Skipped(tables, 0) == 0
  {}

  lemma WithoutLastTable(tables: seq<Table>, lastTableOffset: nat)
    requires tables != [] && tables[|tables| - 1].numRows != 0
    ensures (Sizes(tables) / tables[|tables| - 1].numRows) * lastTableOffset == Skipped(tables, lastTableOffset)
  {
    var back := tables[|tables| - 1].numRows;
    SizesTake(tables, |tables| - 1);
    assert tables[..|tables| - 1 + 1] == tables;
    DivModUnique(Sizes(tables), back, Sizes(tables[..|tables| - 1]), 0);
  }

  /** The size of the product, counted as if the last table started at row 0. */
  method TotalResultSize(tables: seq<Table>, lastTableOffset: nat) returns (total: nat)
    requires AllValid(tables)
    requires tables == [] || tables[|tables| - 1].numRows == 0 ==> lastTableOffset == 0
    ensures total == |Product(RowLists(tables))| + Skipped(tables, lastTableOffset)
  {
    hide Sizes, Skipped;
    total := 1;
    SizesOfNone(tables);
    for k := 0 to |tables|
      invariant total == Sizes(tables[..k])
    {
      SizesTake(tables, k);
      total := total * tables[k].numRows;
    }
    assert tables[..|tables|] == tables;
    SizesIsVolume(tables);
    if tables != [] && tables[|tables| - 1].numRows != 0 {
      var back := tables[|tables| - 1].numRows;
      WithoutLastTable(tables, lastTableOffset);
      total := total + (total / back) * lastTableOffset;
    }
  }

  ghost predicate RowsSoFar(tables: seq<Table>, columns: seq<seq<Id>>, size: nat, k: nat, first: nat)
    requires AllValid(tables) && k <= |tables| && forall t | t in tables :: t.numRows > 0
    requires Columns(columns, size)
  {
    forall n: nat | n < size :: RowOf(columns, size, n) + Rest(tables, k, first + n) == Decode(tables, first + n)
  }

  lemma RowsSoFarStart(tables: seq<Table>, size: nat, first: nat)
    requires AllValid(tables) && forall t | t in tables :: t.numRows > 0
    ensures RowsSoFar(tables, [], size, 0, first)
  {
    forall n: nat | n < size
      ensures RowOf([], size, n) + Rest(tables, 0, first + n) == Decode(tables, first + n)
    {
      RestAll(tables, first + n);
    }
  }

  /** Fills `size` rows, starting at `position` of the product, that is, at `offset` when the rows
      before the last table's block are counted as well. */
  method WriteRows(tables: seq<Table>, offset: nat, size: nat, lastTableOffset: nat, ghost position: nat)
    returns (columns: seq<seq<Id>>)
    requires AllValid(tables) && forall t | t in tables :: t.numRows > 0
    requires offset == position + Skipped(tables, lastTableOffset)
    ensures Columns(columns, size) && |columns| == Width(tables)
    ensures forall n: nat | n < size :: RowOf(columns, size, n) == Decode(tables, position + n)
  {
    columns := [];
    var groupSize := 1;
    RowsSoFarStart(tables, size, position);
    for k := 0 to |tables|
      invariant groupSize == Sizes(tables[..k])
      invariant Columns(columns, size) && RowsSoFar(tables, columns, size, k, position)
      invariant |columns| + Width(tables[k..]) == Width(tables)
    {
      var extraOffset := if k == |tables| - 1 then lastTableOffset * groupSize else 0;
      NextDigit(tables, k, offset, lastTableOffset, extraOffset);
      ghost var before := columns;
      columns := AppendColumns(columns, size, tables[k], groupSize, offset - extraOffset);
      RowsSoFarStep(tables, before, columns, size, k, position, offset, lastTableOffset, extraOffset);
      SizesTake(tables, k);
      groupSize := groupSize * tables[k].numRows;
      assert tables[k..][1..] == tables[k + 1..];
    }
    forall n: nat | n < size
      ensures RowOf(columns, size, n) == Decode(tables, position + n)
    {
      RestAll(tables, position + n);
    }
  }

  lemma RowsSoFarStep(tables: seq<Table>, before: seq<seq<Id>>, columns: seq<seq<Id>>, size: nat, k: nat,
                      position: nat, offset: nat, lastTableOffset: nat, extraOffset: nat)
    requires AllValid(tables) && k < |tables| && forall t | t in tables :: t.numRows > 0
    requires Columns(before, size) && RowsSoFar(tables, before, size, k, position) && Columns(columns, size)
    requires offset == position + Skipped(tables, lastTableOffset) && Sizes(tables[..k]) > 0
    requires extraOffset == if k == |tables| - 1 then lastTableOffset * Sizes(tables[..k]) else 0
    requires extraOffset <= offset
    requires Appended(before, columns, size, tables[k], Sizes(tables[..k]), offset - extraOffset)
    ensures RowsSoFar(tables, columns, size, k + 1, position)
  {
    forall n: nat | n < size
      ensures RowOf(columns, size, n) + Rest(tables, k + 1, position + n) == Decode(tables, position + n)
    {
      assert RowOf(before, size, n) + Rest(tables, k, position + n) == Decode(tables, position + n);
      RowStep(tables, k, position + n, offset + n, lastTableOffset, extraOffset, RowOf(before, size, n),
              RowOf(columns, size, n));
    }
  }

  lemma RowStep(tables: seq<Table>, k: nat, y: nat, offset: nat, lastTableOffset: nat, extraOffset: nat, before: Row, row: Row)
    requires AllValid(tables) && k < |tables| && forall t | t in tables :: t.numRows > 0
    requires offset == y + Skipped(tables, lastTableOffset) && extraOffset <= offset && Sizes(tables[..k]) > 0
    requires extraOffset == if k == |tables| - 1 then lastTableOffset * Sizes(tables[..k]) else 0
    requires row == before + tables[k].RowAt((offset - extraOffset) / Sizes(tables[..k]) % tables[k].numRows)
    ensures row + Rest(tables, k + 1, y) == before + Rest(tables, k, y)
  {
    NextDigit(tables, k, offset, lastTableOffset, extraOffset);
    assert offset - Skipped(tables, lastTableOffset) == y;
  }

  /** The rows from `position` on of the product, at most `limit` of them. The last table is preceded
      by `lastTableOffset` rows that are not part of it, and `offset` counts from their start. */
  method WriteAllColumns(tables: seq<Table>, offset: nat, limit: nat, lastTableOffset: nat, ghost position: nat)
    returns (result: Table)
    requires AllValid(tables)
    requires lastTableOffset <= offset == position + Skipped(tables, lastTableOffset)
    requires tables == [] || tables[|tables| - 1].numRows == 0 ==> lastTableOffset == 0
    ensures result.Valid() && |result.columns| == Width(tables)
    ensures result.Rows() == Slice(Product(RowLists(tables)), position, limit)
  {
    var total := TotalResultSize(tables, lastTableOffset);
    var actualOffset := Min(offset, total);
    var size := Min(limit, total - actualOffset);
    SizesIsVolume(tables);
    SizesPositive(tables);
    if size == 0 {
      return Table(EmptyColumns(tables), 0);
    }
    var columns := WriteRows(tables, actualOffset, size, lastTableOffset, position);
    result := Table(columns, size);
    RowsAreProduct(tables, columns, size, position);
  }

  lemma RowsAreProduct(tables: seq<Table>, columns: seq<seq<Id>>, size: nat, position: nat)
    requires AllValid(tables) && forall t | t in tables :: t.numRows > 0
    requires Columns(columns, size)
    requires forall n: nat | n < size :: RowOf(columns, size, n) == Decode(tables, position + n)
    requires position + size <= |Product(RowLists(tables))|
    ensures Table(columns, size).Rows() == Product(RowLists(tables))[position..position + size]
  {
    var result := Table(columns, size);
    forall n: nat | n < size
      ensures result.Rows()[n] == Product(RowLists(tables))[position + n]
    {
      assert result.RowAt(n) == RowOf(columns, size, n);
      ProductDecodes(tables, position + n);
    }
  }

  ghost function Width(tables: seq<Table>): nat {
    if tables == [] then 0 else |tables[0].columns| + Width(tables[1..])
  }

  function EmptyColumns(tables: seq<Table>): (r: seq<seq<Id>>)
    ensures Columns(r, 0) && |r| == Width(tables)
  {
    if tables == [] then [] else seq(|tables[0].columns|, c => []) + EmptyColumns(tables[1..])
  }

  // ---- Producing tables lazily ------------------------------------------------------------------

  /** Each yielded table holds between one row and a chunk of rows. */
  ghost predicate Chunks(tables: seq<Table>, chunkSize: nat, width: nat) {
    forall t | t in tables :: t.Valid() && 0 < t.numRows <= chunkSize && |t.columns| == width
  }

  lemma AllRowsSnoc(tables: seq<Table>, t: Table)
    requires AllValid(tables) && t.Valid()
    ensures AllRows(tables + [t]) == AllRows(tables) + t.Rows()
  {
    AllRowsAppend(tables, [t]);
    assert AllRows([t]) == t.Rows() + AllRows([t][1..]);
  }

  /** The tables hold exactly `taken` rows, namely those from `first` on. */
  ghost predicate Holds(tables: seq<Table>, rows: seq<Row>, first: nat, taken: nat)
    requires AllValid(tables)
  {
    AllRows(tables) == Slice(rows, first, taken) && |AllRows(tables)| == taken
  }

  /** One more chunk extends the rows held. */
  lemma HoldsMore(tables: seq<Table>, t: Table, rows: seq<Row>, first: nat, limit: nat, rest: nat, b: nat)
    requires AllValid(tables) && t.Valid() && rest <= limit && Holds(tables, rows, first, limit - rest) && b <= rest
    requires t.Rows() == Slice(rows, first + (limit - rest), b)
    ensures t.numRows <= b && Holds(tables + [t], rows, first, limit - (rest - t.numRows))
    ensures t.numRows == 0 ==> AllRows(tables + [t]) == AllRows(tables)
  {
    hide AllRows, Slice;
    SliceContinues(rows, first, limit - rest, b);
    AllRowsSnoc(tables, t);
  }

  /** If the chunk is short, nothing more can follow. */
  lemma HoldsAll(tables: seq<Table>, t: Table, rows: seq<Row>, first: nat, limit: nat, rest: nat, b: nat)
    requires AllValid(tables) && t.Valid() && rest <= limit && Holds(tables, rows, first, limit - rest) && b <= rest
    requires t.Rows() == Slice(rows, first + (limit - rest), b)
    ensures t.numRows < b ==> AllRows(tables + [t]) == Slice(rows, first, limit)
  {
    if t.numRows < b {
      HoldsMore(tables, t, rows, first, limit, rest, b);
      SliceEnds(rows, first, limit - rest, b, rest);
    }
  }

  lemma ChunksMore(tables: seq<Table>, t: Table, chunkSize: nat, width: nat)
    requires Chunks(tables, chunkSize, width) && t.Valid() && 0 < t.numRows <= chunkSize && |t.columns| == width
    ensures Chunks(tables + [t], chunkSize, width)
  {}

  /** The rows from `position` on of the product, at most `limit` of them, in tables of at most
      `chunkSize` rows. */
  method ProduceTablesLazily(tables: seq<Table>, offset: nat, limit: nat, lastTableOffset: nat, chunkSize: nat,
                             ghost position: nat, ghost rows: seq<Row>)
    returns (yielded: seq<Table>)
    requires AllValid(tables) && chunkSize > 0
    requires limit > 0 ==> lastTableOffset <= offset == position + Skipped(tables, lastTableOffset)
    requires tables == [] || tables[|tables| - 1].numRows == 0 ==> lastTableOffset == 0
    requires rows == Product(RowLists(tables))
    ensures Chunks(yielded, chunkSize, Width(tables))
    ensures AllRows(yielded) == Slice(rows, position, limit)
  {
    var offset': nat, limit': nat := offset, limit;
    yielded := [];
    assert Holds(yielded, rows, position, 0) && Chunks(yielded, chunkSize, Width(tables));
    hide AllRows, Slice, Product, RowLists, Skipped, Chunks;
    while limit' != 0
      invariant Chunks(yielded, chunkSize, Width(tables))
      invariant limit' <= limit && offset' == offset + (limit - limit')
      invariant Holds(yielded, rows, position, limit - limit')
      decreases limit'
    {
      var limitWithChunkSize := Min(limit', chunkSize);
      var idTable := WriteAllColumns(tables, offset', limitWithChunkSize, lastTableOffset, position + (limit - limit'));
      HoldsMore(yielded, idTable, rows, position, limit, limit', limitWithChunkSize);
      HoldsAll(yielded, idTable, rows, position, limit, limit', limitWithChunkSize);
      var tableSize := idTable.numRows;
      if tableSize == 0 {
        break;
      }
      ChunksMore(yielded, idTable, chunkSize, Width(tables));
      offset' := offset' + tableSize;
      limit' := limit' - tableSize;
      yielded := yielded + [idTable];
      if !(limit' > 0 && tableSize >= limitWithChunkSize) {
        break;
      }
    }
  }

  lemma SliceContinues<T>(s: seq<T>, offset: nat, a: nat, b: nat)
    requires |Slice(s, offset, a)| == a
    ensures Slice(s, offset, a) + Slice(s, offset + a, b) == Slice(s, offset, a + |Slice(s, offset + a, b)|)
    ensures |Slice(s, offset + a, b)| <= b
  {}

  /** A slice that comes out shorter than its limit has reached the end. */
  lemma SliceEnds<T>(s: seq<T>, offset: nat, a: nat, b: nat, rest: nat)
    requires |Slice(s, offset, a)| == a && b <= rest
    requires |Slice(s, offset + a, b)| < b
    ensures Slice(s, offset, a + |Slice(s, offset + a, b)|) == Slice(s, offset, a + rest)
  {}

  lemma SliceOfConcat<T>(p: seq<T>, q: seq<T>, offset: nat, limit: nat)
    ensures var k := |Slice(p, offset, limit)|;
            k <= limit
            && (k == limit || offset + k >= |p|)
            && Slice(p + q, offset, limit)
               == if k == limit then Slice(p, offset, limit)
                  else Slice(p, offset, limit) + Slice(q, offset + k - |p|, limit - k)
  {}

  method CountRows(tables: seq<Table>) returns (n: nat)
    requires AllValid(tables)
    ensures n == |AllRows(tables)|
  {
    n := 0;
    for t := 0 to |tables|
      invariant n == |AllRows(tables[..t])|
    {
      AllRowsSnoc(tables[..t], tables[t]);
      assert tables[..t + 1] == tables[..t] + [tables[t]];
      n := n + tables[t].numRows;
    }
    assert tables[..|tables|] == tables;
  }

  /** What the consumer has produced once it has seen blocks with the given rows. */
  ghost function Consumed(subresults: seq<Table>, seen: seq<Row>, offset: nat, limit: nat): seq<Row>
    requires AllValid(subresults)
  {
    Slice(Product(RowLists(subresults) + [seen]), offset, limit)
  }

  /** The static tables combined with a last table that arrives in blocks. */
  method CreateLazyConsumer(subresults: seq<Table>, blocks: seq<Table>, offset: nat, limit: nat, chunkSize: nat)
    returns (yielded: seq<Table>)
    requires AllValid(subresults) && AllValid(blocks) && chunkSize > 0
    requires forall t | t in subresults :: t.numRows > 0
    ensures forall t | t in yielded :: t.Valid() && 0 < t.numRows <= chunkSize
    ensures AllRows(yielded) == Consumed(subresults, AllRows(blocks), offset, limit)
  {
    var offset', limit' := offset, limit;
    var lastTableOffset, producedTableSize := 0, 0;
    var back := Table([], 0);
    yielded := [];
    ProductLastEmpty(RowLists(subresults));
    for b := 0 to |blocks|
      invariant forall t | t in yielded :: t.Valid() && 0 < t.numRows <= chunkSize
      invariant lastTableOffset + back.numRows == |AllRows(blocks[..b])|
      invariant AllRows(yielded) == Consumed(subresults, AllRows(blocks[..b]), offset, limit)
      invariant limit' == limit - |AllRows(yielded)| + producedTableSize
      invariant offset' == offset + |AllRows(yielded)| - producedTableSize
      invariant 0 <= producedTableSize <= |AllRows(yielded)| <= limit
    {
      lastTableOffset := lastTableOffset + back.numRows;
      limit' := limit' - producedTableSize;
      offset' := offset' + producedTableSize;
      producedTableSize := 0;
      back := blocks[b];
      assert blocks[..b + 1] == blocks[..b] + [back];
      AllRowsSnoc(blocks[..b], back);
      if back.numRows == 0 {
        assert AllRows(blocks[..b + 1]) == AllRows(blocks[..b]);
        continue;
      }
      var tables := ConsumeBlock(subresults, back, offset', limit', lastTableOffset, chunkSize,
                                 AllRows(blocks[..b]), offset, limit);
      AllRowsAppend(yielded, tables);
      yielded := yielded + tables;
      producedTableSize := CountRows(tables);
    }
    assert blocks[..|blocks|] == blocks;
  }

  method ConsumeBlock(subresults: seq<Table>, back: Table, offset: nat, limit: nat, lastTableOffset: nat, chunkSize: nat,
                      ghost seen: seq<Row>, ghost offset0: nat, ghost limit0: nat)
    returns (tables: seq<Table>)
    requires AllValid(subresults) && back.Valid() && back.numRows > 0 && chunkSize > 0
    requires forall t | t in subresults :: t.numRows > 0
    requires lastTableOffset == |seen|
    requires offset == offset0 + |Consumed(subresults, seen, offset0, limit0)|
    requires limit + |Consumed(subresults, seen, offset0, limit0)| == limit0
    ensures forall t | t in tables :: t.Valid() && 0 < t.numRows <= chunkSize
    ensures Consumed(subresults, seen, offset0, limit0) + AllRows(tables)
         == Consumed(subresults, seen + back.Rows(), offset0, limit0)
  {
    ConsumerStep(subresults, back, seen, offset0, limit0);
    ghost var skipped := Skipped(subresults + [back], lastTableOffset);
    tables := ProduceTablesLazily(subresults + [back], offset, limit, lastTableOffset, chunkSize,
                                  if limit > 0 then offset - skipped else 0, Product(RowLists(subresults + [back])));
  }

  lemma ConsumerStep(subresults: seq<Table>, back: Table, seen: seq<Row>, offset: nat, limit: nat)
    requires AllValid(subresults) && back.Valid()
    requires forall t | t in subresults :: t.numRows > 0
    ensures var k := |Consumed(subresults, seen, offset, limit)|;
            var skipped := Skipped(subresults + [back], |seen|);
            && k <= limit
            && (k < limit ==> |seen| <= skipped <= offset + k)
            && Consumed(subresults, seen + back.Rows(), offset, limit)
               == Consumed(subresults, seen, offset, limit)
                  + if k < limit
                    then Slice(Product(RowLists(subresults + [back])), offset + k - skipped, limit - k) else []
  {
    var p, q := Product(RowLists(subresults) + [seen]), Product(RowLists(subresults + [back]));
    var skipped := Skipped(subresults + [back], |seen|);
    ConsumedSnoc(subresults, back, seen, offset, limit);
    SkippedIsSize(subresults, back, seen);
    assert Consumed(subresults, seen, offset, limit) == Slice(p, offset, limit);
    hide Slice, Product, RowLists, Skipped, Consumed;
    SliceOfConcat(p, q, offset, limit);
  }

  lemma ConsumedSnoc(subresults: seq<Table>, back: Table, seen: seq<Row>, offset: nat, limit: nat)
    requires AllValid(subresults) && back.Valid()
    ensures Consumed(subresults, seen + back.Rows(), offset, limit)
         == Slice(Product(RowLists(subresults) + [seen]) + Product(RowLists(subresults + [back])), offset, limit)
  {
    hide Slice, Product;
    assert RowLists(subresults + [back]) == RowLists(subresults) + [back.Rows()];
    ProductLastAppend(RowLists(subresults), seen, back.Rows());
  }

  /** The offset that is skipped is the number of rows that the blocks seen so far have contributed. */
  lemma SkippedIsSize(subresults: seq<Table>, back: Table, seen: seq<Row>)
    requires AllValid(subresults) && back.Valid()
    requires forall t | t in subresults :: t.numRows > 0
    ensures |seen| <= Skipped(subresults + [back], |seen|) == |Product(RowLists(subresults) + [seen])|
  {
    var ts := RowLists(subresults);
    assert (subresults + [back])[..|subresults|] == subresults;
    SizesIsVolume(subresults);
    SizesPositive(subresults);
    ProductSize(ts + [seen]);
    VolumeSnoc(ts, seen);
    MulMonotone(1, Sizes(subresults), |seen|);
  }
}
